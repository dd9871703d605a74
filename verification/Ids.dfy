/** Identifiers shared by the parts of the app server. */
module Ids {

  type ThreadId = string

  /** A transport connection, numbered in the order of opening. */
  datatype ConnectionId = ConnectionId(number: nat)
}
