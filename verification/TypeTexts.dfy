/** Types as documents: texts in which every bracket is closed by its own kind and every string literal ends. The
    splitter cuts such texts at their outermost delimiters and nowhere else. */
module TypeTexts {
  import opened Wrappers
  import opened Text
  import opened TopLevelSplit

  // ---------- Documents ----------

  /** A character of a string literal, or one after a backslash. */
  datatype LiteralChar = Bare(c: char) | Escaped(c: char)

  datatype Piece =
    | Plain(c: char)
    | Literal(quote: char, body: seq<LiteralChar>)
    | Group(open: char, inner: seq<Piece>)

  const BRACKETS: map<char, char> := map['{' := '}', '[' := ']', '(' := ')', '<' := '>']

  const SPECIAL := {'{', '}', '[', ']', '(', ')', '<', '>', '"', '\''}

  /** Brackets stand only around groups and quotes only around literals. */
  predicate Valid(piece: Piece)
    decreases piece, 0
  {
    match piece
    case Plain(c) => c !in SPECIAL
    case Literal(quote, body) =>
      && (quote == '"' || quote == '\'')
      && forall i :: 0 <= i < |body| && body[i].Bare? ==> body[i].c != quote && body[i].c != '\\'
    case Group(open, inner) => open in BRACKETS && AllValid(inner)
  }

  predicate AllValid(pieces: seq<Piece>)
    decreases pieces, 1
  {
    pieces == [] || (Valid(pieces[0]) && AllValid(pieces[1..]))
  }

  function LiteralText(body: seq<LiteralChar>): string {
    if body == [] then ""
    else (if body[0].Bare? then [body[0].c] else ['\\', body[0].c]) + LiteralText(body[1..])
  }

  function PieceText(piece: Piece): string
    requires Valid(piece)
    decreases piece, 0
  {
    match piece
    case Plain(c) => [c]
    case Literal(quote, body) => [quote] + (LiteralText(body) + [quote])
    case Group(open, inner) => [open] + (TypeText(inner) + [BRACKETS[open]])
  }

  function TypeText(pieces: seq<Piece>): string
    requires AllValid(pieces)
    decreases pieces, 1
  {
    if pieces == [] then "" else PieceText(pieces[0]) + TypeText(pieces[1..])
  }

  // ---------- Scanning documents ----------

  predicate OutsideLiterals(st: Scan) {
    st.quote.None? && !st.escape
  }

  lemma {:induction false} ScanLiteral(st: Scan, body: seq<LiteralChar>, delimiters: set<char>)
    requires st.quote.Some? && !st.escape
    requires forall i :: 0 <= i < |body| && body[i].Bare? ==> body[i].c != st.quote.value && body[i].c != '\\'
    ensures ScanAll(st, LiteralText(body)) == st && Uncut(st, LiteralText(body), delimiters)
  {
    if body == [] {
    } else {
      var rest := LiteralText(body[1..]);
      assert forall i :: 0 <= i < |body| - 1 ==> body[1..][i] == body[i + 1];
      ScanLiteral(st, body[1..], delimiters);
      if body[0].Bare? {
        assert LiteralText(body)[0] == body[0].c && LiteralText(body)[1..] == rest;
      } else {
        var escaped := st.(escape := true);
        assert LiteralText(body)[0] == '\\' && LiteralText(body)[1..] == [body[0].c] + rest;
        assert ([body[0].c] + rest)[1..] == rest;
        assert ScanAll(escaped, [body[0].c] + rest) == ScanAll(st, rest);
      }
    }
  }

  /** Around a text that leaves the state below the outer one alone, an opening and a closing character lead back to
      the outer state. */
  lemma Enclosed(st: Scan, inside: Scan, open: char, text: string, close: char, delimiters: set<char>)
    requires Observed(st, open) == inside && Observed(inside, close) == st
    requires ScanAll(inside, text) == inside && Uncut(inside, text, delimiters)
    requires !Cuts(st, open, delimiters) && !Cuts(inside, close, delimiters)
    ensures ScanAll(st, [open] + (text + [close])) == st && Uncut(st, [open] + (text + [close]), delimiters)
  {
    hide Observed, Cuts;
    ScanOne(st, open, delimiters);
    ScanOne(inside, close, delimiters);
    ScanConcat(inside, text, [close], delimiters);
    ScanConcat(st, [open], text + [close], delimiters);
  }

  lemma OpensDeeper(st: Scan, open: char)
    requires OutsideLiterals(st) && open in BRACKETS
    ensures var inside := Observed(st, open);
            OutsideLiterals(inside) && !TopLevel(inside) && Observed(inside, BRACKETS[open]) == st
  {
  }

  lemma OpeningIsNoDelimiter(st: Scan, open: char, delimiters: set<char>)
    requires OutsideLiterals(st) && AllNeutral(delimiters)
    requires open in BRACKETS || open == '"' || open == '\''
    ensures !Cuts(st, open, delimiters)
  {
    assert !Neutral(open);
  }

  /** No plain character at the outermost level is a delimiter. */
  predicate NoDelimiter(pieces: seq<Piece>, delimiters: set<char>) {
    forall i :: 0 <= i < |pieces| && pieces[i].Plain? ==> pieces[i].c !in delimiters
  }

  lemma {:induction false} ScanPiece(st: Scan, piece: Piece, delimiters: set<char>)
    requires Valid(piece) && OutsideLiterals(st) && AllNeutral(delimiters)
    requires TopLevel(st) && piece.Plain? ==> piece.c !in delimiters
    ensures ScanAll(st, PieceText(piece)) == st && Uncut(st, PieceText(piece), delimiters)
    decreases piece, 0
  {
    match piece
    case Plain(c) => ScanOne(st, c, delimiters);
    case Literal(quote, body) =>
      var inside := st.(quote := Some(quote));
      OpeningIsNoDelimiter(st, quote, delimiters);
      ScanLiteral(inside, body, delimiters);
      assert Observed(st, quote) == inside && Observed(inside, quote) == st;
      Enclosed(st, inside, quote, LiteralText(body), quote, delimiters);
    case Group(open, inner) =>
      var inside := Observed(st, open);
      OpensDeeper(st, open);
      OpeningIsNoDelimiter(st, open, delimiters);
      ScanType(inside, inner, delimiters);
      Enclosed(st, inside, open, TypeText(inner), BRACKETS[open], delimiters);
  }

  /** A type's text leads the scanner back to where it was, and is cut nowhere. */
  lemma {:induction false} ScanType(st: Scan, pieces: seq<Piece>, delimiters: set<char>)
    requires AllValid(pieces) && OutsideLiterals(st) && AllNeutral(delimiters)
    requires TopLevel(st) ==> NoDelimiter(pieces, delimiters)
    ensures ScanAll(st, TypeText(pieces)) == st && Uncut(st, TypeText(pieces), delimiters)
    decreases pieces, 1
  {
    if pieces == [] {
    } else {
      assert forall i :: 0 <= i < |pieces| - 1 ==> pieces[1..][i] == pieces[i + 1];
      hide Observed;
      ScanPiece(st, pieces[0], delimiters);
      ScanType(st, pieces[1..], delimiters);
      ScanConcat(st, PieceText(pieces[0]), TypeText(pieces[1..]), delimiters);
    }
  }

  // ---------- Splitting documents ----------

  predicate AreTypes(types: seq<seq<Piece>>, delimiters: set<char>) {
    forall i :: 0 <= i < |types| ==> AllValid(types[i]) && NoDelimiter(types[i], delimiters)
  }

  function Texts(types: seq<seq<Piece>>, delimiters: set<char>): (texts: seq<string>)
    requires AreTypes(types, delimiters)
  {
    seq(|types|, i requires 0 <= i < |types| => TypeText(types[i]))
  }

  /** The texts without whitespace around them, but for those that are nothing else. */
  function NonBlank(texts: seq<string>): (kept: seq<string>) {
    if texts == [] then []
    else (if Trim(texts[0]) == "" then [] else [Trim(texts[0])]) + NonBlank(texts[1..])
  }

  /** Texts that are cut nowhere and lead back to the start are split where they are joined. */
  lemma {:induction false} SplitOfClosed(texts: seq<string>, d: char, delimiters: set<char>)
    requires texts != [] && d in delimiters && AllNeutral(delimiters)
    requires forall i :: 0 <= i < |texts| ==> Uncut(START, texts[i], delimiters) && IsClosed(texts[i])
    ensures SplitTopLevel(Join(texts, [d]), delimiters) == NonBlank(texts)
  {
    hide Observed, Trim, Uncut, ScanAll;
    if |texts| == 1 {
      SplitSkipsUncut(START, "", texts[0], "", delimiters);
      assert texts[0] + "" == texts[0] && "" + texts[0] == texts[0];
      assert NonBlank(texts[1..]) == [];
    } else {
      var rest := Join(texts[1..], [d]);
      assert forall i :: 0 <= i < |texts| - 1 ==> texts[1..][i] == texts[i + 1];
      SplitOfClosed(texts[1..], d, delimiters);
      SplitSkipsUncut(START, "", texts[0], [d] + rest, delimiters);
      assert texts[0] + ([d] + rest) == texts[0] + [d] + rest && "" + texts[0] == texts[0];
      assert Neutral(d) && ([d] + rest)[1..] == rest;
      assert Cuts(START, d, delimiters);
    }
  }

  /** Types joined by a delimiter are split into the same types again, whatever delimiters their groups and string
      literals hold. */
  lemma SplitOfTypes(types: seq<seq<Piece>>, d: char, delimiters: set<char>)
    requires types != [] && AreTypes(types, delimiters) && d in delimiters && AllNeutral(delimiters)
    ensures SplitTopLevel(Join(Texts(types, delimiters), [d]), delimiters) == NonBlank(Texts(types, delimiters))
  {
    var texts := Texts(types, delimiters);
    forall i | 0 <= i < |texts|
      ensures Uncut(START, texts[i], delimiters) && IsClosed(texts[i])
    {
      ScanType(START, types[i], delimiters);
    }
    SplitOfClosed(texts, d, delimiters);
  }

  lemma Regrouped(a: seq<string>, b: seq<string>, c: seq<string>, d: seq<string>)
    ensures a + (b + c + d) == (a + b) + c + d
  {
  }

  /** Every arm is kept or dropped by itself, and those that are kept keep their order. */
  lemma {:induction false} KeptArmsInOrder(before: seq<string>, arm: string, after: seq<string>,
                                           dropped: string -> bool)
    ensures KeepArms(before + [arm] + after, dropped) ==
            KeepArms(before, dropped) + (if dropped(arm) then [] else [arm]) + KeepArms(after, dropped)
  {
    var all := before + [arm] + after;
    var own := if dropped(arm) then [] else [arm];
    if before == [] {
      assert all[0] == arm && all[1..] == after;
      assert [] + own == own;
    } else {
      assert all[0] == before[0] && all[1..] == before[1..] + [arm] + after;
      KeptArmsInOrder(before[1..], arm, after, dropped);
      var first := if dropped(before[0]) then [] else [before[0]];
      assert KeepArms(all, dropped) == first + KeepArms(all[1..], dropped);
      assert KeepArms(before, dropped) == first + KeepArms(before[1..], dropped);
      hide KeepArms;
      Regrouped(first, KeepArms(before[1..], dropped), own, KeepArms(after, dropped));
    }
  }

  // ---------- Where brackets are not closed by their own kind ----------

  lemma {:induction false} NothingCut(st: Scan, s: string, delimiters: set<char>)
    requires forall c :: c in s ==> c !in delimiters
    ensures Uncut(st, s, delimiters)
    decreases |s|
  {
    hide Observed;
    if s == "" {
    } else {
      assert s[0] in s && forall c :: c in s[1..] ==> c in s;
      NothingCut(Observed(st, s[0]), s[1..], delimiters);
    }
  }

  lemma {:induction false} PlainTextKeeps(st: Scan, s: string)
    requires OutsideLiterals(st) && forall c :: c in s ==> c !in SPECIAL
    ensures ScanAll(st, s) == st
    decreases |s|
  {
    if s == "" {
    } else {
      assert s[0] in s && forall c :: c in s[1..] ==> c in s;
      PlainTextKeeps(st, s[1..]);
    }
  }

  lemma ArrowIsClosed(a: string, b: string)
    requires forall c :: c in a + b ==> c !in SPECIAL
    ensures IsClosed("<" + a + "=>" + b)
  {
    var angle := START.(angle := 1);
    PlainTextKeeps(angle, a);
    PlainTextKeeps(angle, "=");
    PlainTextKeeps(START, b);
    ScanOne(START, '<', {});
    ScanOne(angle, '>', {});
    hide ScanAll, Observed;
    assert "<" + a + "=>" + b == "<" + (a + ("=" + (">" + b)));
    ScanConcat(START, "<", a + ("=" + (">" + b)), {});
    ScanConcat(angle, a, "=" + (">" + b), {});
    ScanConcat(angle, "=", ">" + b, {});
    ScanConcat(angle, ">", b, {});
  }

  lemma CloserIsClosed(c: string)
    requires forall d :: d in c ==> d !in SPECIAL
    ensures IsClosed(c + ">")
  {
    PlainTextKeeps(START, c);
    ScanConcat(START, c, ">", {});
    ScanOne(START, '>', {});
  }

  /** An arrow inside angle brackets closes them for the scanner, which then cuts at a bar inside the type. */
  lemma ArrowClosesAngle(a: string, b: string, c: string)
    requires forall d :: d in a + b + c ==> d !in SPECIAL && d != '|'
    ensures SplitTopLevel("<" + a + "=>" + b + "|" + c + ">", {'|'}) == NonBlank(["<" + a + "=>" + b, c + ">"])
  {
    var first, second := "<" + a + "=>" + b, c + ">";
    ArrowIsClosed(a, b);
    CloserIsClosed(c);
    forall x | x in first
      ensures x !in {'|'}
    {
      assert x == '<' || x == '=' || x == '>' || x in a + b + c;
    }
    forall x | x in second
      ensures x !in {'|'}
    {
      assert x == '>' || x in a + b + c;
    }
    NothingCut(START, first, {'|'});
    NothingCut(START, second, {'|'});
    hide IsClosed, Uncut, NonBlank, SplitTopLevel;
    SplitOfClosed([first, second], '|', {'|'});
    assert [first, second][1..] == [second];
    assert Join([first, second], "|") == first + "|" + second;
    assert first + "|" + second == "<" + a + "=>" + b + "|" + c + ">";
  }
}
