/**
 * The SQL text helpers of the migration check: the matching parenthesis, the split at top-level commas, and the
 * column list between parentheses. Single-quoted literals are skipped over; a doubled quote closes and reopens one.
 */
module SqlText {
  import opened Common

  // ---------------------------------------------------------------------------------------------
  // The scan both helpers share
  // ---------------------------------------------------------------------------------------------

  datatype Scan = Scan(depth: int, inString: bool)

  const START: Scan := Scan(0, false)

  function After(st: Scan, ch: char): Scan {
    if ch == '\'' then st.(inString := !st.inString)
    else if st.inString then st
    else if ch == '(' then st.(depth := st.depth + 1)
    else if ch == ')' then st.(depth := st.depth - 1)
    else st
  }

  function Run(st: Scan, text: string): Scan {
    if text == "" then st else After(Run(st, text[..|text| - 1]), text[|text| - 1])
  }

  lemma {:induction false} RunAppend(st: Scan, a: string, b: string)
    ensures Run(st, a + b) == Run(Run(st, a), b)
  {
    if b == "" {
      assert a + b == a;
    } else {
      RunAppend(st, a, b[..|b| - 1]);
      assert (a + b)[..|a + b| - 1] == a + b[..|b| - 1];
    }
  }

  /** The depth a text starts at only shifts the depths in it. */
  lemma {:induction false} RunShift(st: Scan, up: int, text: string)
    ensures Run(st.(depth := st.depth + up), text) == Run(st, text).(depth := Run(st, text).depth + up)
  {
    if text != "" {
      RunShift(st, up, text[..|text| - 1]);
    }
  }

  lemma RunSnoc(st: Scan, front: string, ch: char)
    ensures Run(st, front + [ch]) == After(Run(st, front), ch)
  {
    assert (front + [ch])[..|front|] == front;
  }

  lemma {:induction false} InsideALiteral(st: Scan, content: string)
    requires st.inString && '\'' !in content
    ensures Run(st, content) == st
  {
    if content != "" {
      assert content[|content| - 1] in content;
      InsideALiteral(st, content[..|content| - 1]);
    }
  }

  /** A quoted literal changes nothing, whatever parentheses and commas it holds; a doubled quote is two literals in a
    * row. */
  lemma LiteralsAreSkipped(st: Scan, content: string, more: string)
    requires !st.inString && '\'' !in content && '\'' !in more
    ensures Run(st, "'" + content + "'") == st
    ensures Run(st, "'" + content + "''" + more + "'") == st
  {
    var first, second := "'" + content + "'", "'" + more + "'";
    LiteralIsSkipped(st, content);
    LiteralIsSkipped(st, more);
    RunAppend(st, first, second);
    assert "'" + content + "''" + more + "'" == first + second;
  }

  lemma LiteralIsSkipped(st: Scan, content: string)
    requires !st.inString && '\'' !in content
    ensures Run(st, "'" + content + "'") == st
  {
    var open := "'" + content;
    RunSnoc(st, "", '\'');
    assert "" + ['\''] == "'";
    RunAppend(st, "'", content);
    InsideALiteral(st.(inString := true), content);
    RunSnoc(st, open, '\'');
    assert open + ['\''] == "'" + content + "'";
  }

  /** Outside literals the depth is the number of opening parentheses less the number of closing ones. */
  lemma {:induction false} ParenthesesAreCounted(st: Scan, text: string)
    requires !st.inString && '\'' !in text
    ensures Run(st, text) == Scan(st.depth + multiset(text)['('] - multiset(text)[')'], false)
  {
    if text != "" {
      var front, ch := text[..|text| - 1], text[|text| - 1];
      assert text == front + [ch] && ch in text;
      ParenthesesAreCounted(st, front);
    }
  }

  // ---------------------------------------------------------------------------------------------
  // findMatchingParen
  // ---------------------------------------------------------------------------------------------

  /** Position `i` closes the scan that began at `open`: an unquoted parenthesis that brings the depth to zero. */
  predicate Closes(text: string, open: nat, i: nat)
    requires open <= i < |text|
  {
    var before := Run(START, text[open..i]);
    !before.inString && text[i] == ')' && before.depth == 1
  }

  lemma RunStep(st: Scan, text: string, from: nat, i: nat)
    requires from <= i < |text|
    ensures Run(st, text[from..i + 1]) == After(Run(st, text[from..i]), text[i])
  {
    var longer := text[from..i + 1];
    assert longer[..|longer| - 1] == text[from..i] && longer[|longer| - 1] == text[i];
  }

  method FindMatchingParen(text: string, openIndex: nat) returns (result: Option<nat>)
    requires openIndex <= |text|
    ensures result.Some? ==>
              && openIndex <= result.value < |text| && Closes(text, openIndex, result.value)
              && forall j :: openIndex <= j < result.value ==> !Closes(text, openIndex, j)
    ensures result.None? ==> forall j :: openIndex <= j < |text| ==> !Closes(text, openIndex, j)
  {
    var depth, inString := 0, false;
    for i := openIndex to |text|
      invariant Scan(depth, inString) == Run(START, text[openIndex..i])
      invariant forall j :: openIndex <= j < i ==> !Closes(text, openIndex, j)
    {
      var ch := text[i];
      RunStep(START, text, openIndex, i);
      if ch == '\'' {
        inString := !inString;
        continue;
      }
      if inString {
        continue;
      }
      if ch == '(' {
        depth := depth + 1;
      } else if ch == ')' {
        depth := depth - 1;
        if depth == 0 {
          return Some(i);
        }
      }
    }
    result := None;
  }

  /** Quotes closed, and no parenthesis closed that the text did not open. */
  ghost predicate Balanced(text: string) {
    && Run(START, text) == START
    && forall i :: 0 <= i <= |text| ==> Run(START, text[..i]).depth >= 0
  }

  lemma InsideIsOneDeeper(text: string, open: nat, i: nat)
    requires open < i <= |text| && text[open] == '('
    ensures var inner := Run(START, text[open + 1..i]);
            Run(START, text[open..i]) == Scan(inner.depth + 1, inner.inString)
  {
    assert text[open..i] == "(" + text[open + 1..i];
    RunAppend(START, "(", text[open + 1..i]);
    assert Run(START, "(") == After(Run(START, "(" [..0]), '(');
    RunShift(START, 1, text[open + 1..i]);
  }

  lemma {:induction false} NoCloseNoDip(text: string, open: nat, i: nat)
    requires open < i <= |text| && text[open] == '('
    requires forall j :: open <= j < i ==> !Closes(text, open, j)
    ensures Run(START, text[open + 1..i]).depth >= 0
  {
    if i > open + 1 {
      NoCloseNoDip(text, open, i - 1);
      InsideIsOneDeeper(text, open, i - 1);
      assert !Closes(text, open, i - 1);
      RunStep(START, text, open + 1, i - 1);
    }
  }

  /** From an opening parenthesis, the first position that closes it is exactly the closing parenthesis around whose
    * contents everything balances. */
  lemma ClosingParenIffContentsBalanced(text: string, open: nat, close: nat)
    requires open < close < |text| && text[open] == '('
    ensures Closes(text, open, close) && (forall j :: open <= j < close ==> !Closes(text, open, j))
            <==> text[close] == ')' && Balanced(text[open + 1..close])
  {
    var inner := text[open + 1..close];
    InsideIsOneDeeper(text, open, close);
    if Closes(text, open, close) && (forall j :: open <= j < close ==> !Closes(text, open, j)) {
      forall i | 0 <= i <= |inner|
        ensures Run(START, inner[..i]).depth >= 0
      {
        NoCloseNoDip(text, open, open + 1 + i);
        assert inner[..i] == text[open + 1..open + 1 + i];
      }
    }
    if text[close] == ')' && Balanced(inner) {
      assert inner[..|inner|] == inner;
      forall j | open <= j < close
        ensures !Closes(text, open, j)
      {
        if open < j {
          InsideIsOneDeeper(text, open, j);
          assert inner[..j - open - 1] == text[open + 1..j];
          RunStep(START, text, open + 1, j);
          assert inner[..j - open] == text[open + 1..j + 1];
          assert Run(START, inner[..j - open]).depth >= 0;
        }
      }
    }
  }

  // ---------------------------------------------------------------------------------------------
  // splitTopLevelCommas
  // ---------------------------------------------------------------------------------------------

  /** The text between its top-level commas, untrimmed. */
  function Cut(text: string): (pieces: seq<string>)
    ensures |pieces| > 0
  {
    if text == "" then [""]
    else
      var front, ch := text[..|text| - 1], text[|text| - 1];
      var pieces := Cut(front);
      if ch == ',' && Run(START, front) == START then pieces + [""]
      else pieces[..|pieces| - 1] + [pieces[|pieces| - 1] + [ch]]
  }

  function CommaJoin(pieces: seq<string>): string {
    if pieces == [] then ""
    else if |pieces| == 1 then pieces[0]
    else CommaJoin(pieces[..|pieces| - 1]) + "," + pieces[|pieces| - 1]
  }

  predicate IsSpace(ch: char) {
    || ch in {' ', '\t', '\n', '\r', '\U{000B}', '\U{000C}', '\U{00A0}', '\U{1680}', '\U{2028}', '\U{2029}', '\U{202F}',
              '\U{205F}', '\U{3000}', '\U{FEFF}'}
    || '\U{2000}' <= ch <= '\U{200A}'
  }

  /** Within ASCII: the tab, the line breaks, the form feeds and the blank, and nothing visible. */
  lemma AsciiSpaces(ch: char)
    requires ch <= '~'
    ensures IsSpace(ch) <==> ch == ' ' || '\t' <= ch <= '\r'
  {
  }

  function TrimStart(s: string): string {
    if s != "" && IsSpace(s[0]) then TrimStart(s[1..]) else s
  }

  function TrimEnd(s: string): string {
    if s != "" && IsSpace(s[|s| - 1]) then TrimEnd(s[..|s| - 1]) else s
  }

  function Trim(s: string): string {
    TrimEnd(TrimStart(s))
  }

  predicate Trimmed(s: string) {
    s != "" ==> !IsSpace(s[0]) && !IsSpace(s[|s| - 1])
  }

  /** Trimmed, with the blank ones dropped. */
  function Kept(pieces: seq<string>): seq<string> {
    if pieces == [] then []
    else
      var last := Trim(pieces[|pieces| - 1]);
      Kept(pieces[..|pieces| - 1]) + if last == "" then [] else [last]
  }

  /** What splitTopLevelCommas returns. */
  function Split(text: string): seq<string> {
    Kept(Cut(text))
  }

  method SplitTopLevelCommas(text: string) returns (parts: seq<string>)
    ensures parts == Split(text)
  {
    var raw: seq<string>, depth, inString, current := [], 0, false, "";
    for i := 0 to |text|
      invariant Scan(depth, inString) == Run(START, text[..i])
      invariant raw + [current] == Cut(text[..i])
    {
      var ch := text[i];
      assert text[..i + 1][..i] == text[..i];
      if ch == '\'' {
        inString := !inString;
        current := current + [ch];
        continue;
      }
      if !inString {
        if ch == '(' {
          depth := depth + 1;
        } else if ch == ')' {
          depth := depth - 1;
        }
      }
      if ch == ',' && depth == 0 && !inString {
        raw, current := raw + [current], "";
      } else {
        current := current + [ch];
      }
    }
    assert text[..|text|] == text;
    assert (raw + [current])[..|raw|] == raw;
    if |Trim(current)| > 0 {
      raw := raw + [current];
    }
    parts := Kept(raw);
  }

  /** No comma at the top level. */
  ghost predicate CommaFree(piece: string) {
    forall i :: 0 <= i < |piece| && piece[i] == ',' ==> Run(START, piece[..i]) != START
  }

  /** Pieces a top-level comma can stand between: none holds one itself, and all but the last end where they began,
    * at depth zero outside a literal. */
  ghost predicate Separable(pieces: seq<string>) {
    && (forall i :: 0 <= i < |pieces| ==> CommaFree(pieces[i]))
    && (forall i :: 0 <= i < |pieces| - 1 ==> Run(START, pieces[i]) == START)
  }

  lemma Snoc<T>(s: seq<T>)
    requires s != []
    ensures s == s[..|s| - 1] + [s[|s| - 1]]
  {
  }

  lemma JoinStep(init: seq<string>, last: string)
    ensures CommaJoin(init + [last]) == if init == [] then last else CommaJoin(init) + "," + last
  {
    assert (init + [last])[..|init|] == init;
  }

  lemma JoinGrows(init: seq<string>, last: string, ch: char)
    ensures CommaJoin(init + [last + [ch]]) == CommaJoin(init + [last]) + [ch]
  {
    JoinStep(init, last);
    JoinStep(init, last + [ch]);
    if init != [] {
      CommaSnoc(CommaJoin(init), last, ch);
    }
  }

  lemma CommaSnoc(text: string, front: string, ch: char)
    ensures text + "," + (front + [ch]) == text + "," + front + [ch]
  {
  }

  /** One more character, given what the text before it is cut into. */
  lemma CutStep(front: string, ch: char, init: seq<string>, last: string)
    requires Cut(front) == init + [last]
    ensures Run(START, front + [ch]) == After(Run(START, front), ch)
    ensures Cut(front + [ch])
            == if ch == ',' && Run(START, front) == START then Cut(front) + [""] else init + [last + [ch]]
  {
    assert (front + [ch])[..|front|] == front && (init + [last])[..|init|] == init;
  }

  /** Cutting loses nothing: the pieces joined with commas are the text. */
  lemma {:induction false} JoiningTheCut(text: string)
    ensures CommaJoin(Cut(text)) == text
  {
    if text != "" {
      var front, ch := text[..|text| - 1], text[|text| - 1];
      JoiningTheCut(front);
      Snoc(text);
      var pieces := Cut(front);
      var init, last := pieces[..|pieces| - 1], pieces[|pieces| - 1];
      Snoc(pieces);
      CutStep(front, ch, init, last);
      JoinStep(pieces, "");
      JoinGrows(init, last, ch);
    }
  }

  lemma CommaFreeGrows(last: string, ch: char)
    requires CommaFree(last) && (ch == ',' ==> Run(START, last) != START)
    ensures CommaFree(last + [ch]) && Run(START, last + [ch]) == After(Run(START, last), ch)
  {
    var longer := last + [ch];
    assert longer[..|last|] == last;
    forall i | 0 <= i < |longer| && longer[i] == ','
      ensures Run(START, longer[..i]) != START
    {
      if i < |last| {
        assert longer[..i] == last[..i];
      }
    }
  }

  lemma CommaFreePrefix(piece: string, k: nat)
    requires CommaFree(piece) && k <= |piece|
    ensures CommaFree(piece[..k])
  {
    forall i | 0 <= i < k && piece[..k][i] == ','
      ensures Run(START, piece[..k][..i]) != START
    {
      assert piece[..k][..i] == piece[..i];
    }
  }

  lemma SeparableStep(init: seq<string>, last: string)
    ensures Separable(init + [last])
            <==> (forall i :: 0 <= i < |init| ==> CommaFree(init[i]) && Run(START, init[i]) == START) && CommaFree(last)
  {
    var all := init + [last];
    assert forall i :: 0 <= i < |init| ==> all[i] == init[i];
    assert all[|init|] == last;
  }

  /** The state after the pieces is the state after the last of them. */
  lemma {:induction false} CutIsSeparable(text: string)
    ensures Separable(Cut(text))
    ensures Run(START, Cut(text)[|Cut(text)| - 1]) == Run(START, text)
  {
    if text != "" {
      var front, ch := text[..|text| - 1], text[|text| - 1];
      CutIsSeparable(front);
      Snoc(text);
      var pieces := Cut(front);
      var init, last := pieces[..|pieces| - 1], pieces[|pieces| - 1];
      Snoc(pieces);
      CutStep(front, ch, init, last);
      SeparableStep(init, last);
      if ch == ',' && Run(START, front) == START {
        SeparableStep(pieces, "");
      } else {
        CommaFreeGrows(last, ch);
        SeparableStep(init, last + [ch]);
      }
    }
  }

  lemma {:induction false} CommaFreeIsOnePiece(piece: string)
    requires CommaFree(piece)
    ensures Cut(piece) == [piece]
  {
    if piece != "" {
      var front, ch := piece[..|piece| - 1], piece[|piece| - 1];
      CommaFreePrefix(piece, |front|);
      CommaFreeIsOnePiece(front);
      Snoc(piece);
      CutStep(front, ch, [], front);
    }
  }

  /** After a closed text and a comma, a comma-free piece is the next piece. */
  lemma {:induction false} CutAfterComma(text: string, piece: string)
    requires Run(START, text) == START && CommaFree(piece)
    ensures Cut(text + "," + piece) == Cut(text) + [piece]
    ensures Run(START, text + "," + piece) == Run(START, piece)
  {
    if piece == "" {
      var pieces := Cut(text);
      Snoc(pieces);
      CutStep(text, ',', pieces[..|pieces| - 1], pieces[|pieces| - 1]);
      assert text + "," + piece == text + [','];
    } else {
      var front, ch := piece[..|piece| - 1], piece[|piece| - 1];
      CommaFreePrefix(piece, |front|);
      CutAfterComma(text, front);
      CutStep(text + "," + front, ch, Cut(text), front);
      Snoc(piece);
      CommaSnoc(text, front, ch);
    }
  }

  lemma {:induction false} CuttingTheJoin(pieces: seq<string>)
    requires Separable(pieces) && pieces != []
    ensures Cut(CommaJoin(pieces)) == pieces
    ensures Run(START, CommaJoin(pieces)) == Run(START, pieces[|pieces| - 1])
  {
    var front, last := pieces[..|pieces| - 1], pieces[|pieces| - 1];
    Snoc(pieces);
    JoinStep(front, last);
    if front == [] {
      CommaFreeIsOnePiece(last);
    } else {
      assert Run(START, front[|front| - 1]) == START;
      CuttingTheJoin(front);
      CutAfterComma(CommaJoin(front), last);
    }
  }

  /** The cut is the only way to write a text as separable pieces. */
  lemma CutIsTheOnlySeparation(text: string, pieces: seq<string>)
    requires pieces != []
    ensures pieces == Cut(text) <==> Separable(pieces) && CommaJoin(pieces) == text
  {
    JoiningTheCut(text);
    CutIsSeparable(text);
    if Separable(pieces) {
      CuttingTheJoin(pieces);
    }
  }

  // The round trip, in both directions

  lemma {:induction false} TrimEndShortens(s: string)
    ensures |TrimEnd(s)| <= |s| && TrimEnd(s) == s[..|TrimEnd(s)|]
    ensures TrimEnd(s) != "" ==> !IsSpace(TrimEnd(s)[|TrimEnd(s)| - 1])
    ensures s != "" && !IsSpace(s[0]) ==> TrimEnd(s) != ""
  {
    if s != "" && IsSpace(s[|s| - 1]) {
      TrimEndShortens(s[..|s| - 1]);
    }
  }

  lemma {:induction false} TrimStartShortens(s: string)
    ensures |TrimStart(s)| <= |s|
    ensures TrimStart(s) != "" ==> !IsSpace(TrimStart(s)[0])
    ensures |TrimStart(s)| == |s| ==> TrimStart(s) == s
  {
    if s != "" && IsSpace(s[0]) {
      TrimStartShortens(s[1..]);
    }
  }

  lemma TrimFacts(s: string)
    ensures Trimmed(Trim(s)) && |Trim(s)| <= |s|
    ensures |Trim(s)| == |s| ==> Trim(s) == s
    ensures Trimmed(s) ==> Trim(s) == s
  {
    TrimStartShortens(s);
    TrimEndShortens(TrimStart(s));
  }

  predicate AllSpace(s: string) {
    forall i :: 0 <= i < |s| ==> IsSpace(s[i])
  }

  /** `s` is `core` with white space around it. */
  ghost predicate Padded(s: string, core: string) {
    Trimmed(core) && exists left, right :: AllSpace(left) && AllSpace(right) && s == left + core + right
  }

  lemma {:induction false} TrimStartSkips(left: string, s: string)
    requires AllSpace(left)
    ensures TrimStart(left + s) == TrimStart(s)
  {
    if left == "" {
      assert left + s == s;
    } else {
      assert (left + s)[1..] == left[1..] + s;
      TrimStartSkips(left[1..], s);
    }
  }

  lemma {:induction false} TrimEndSkips(s: string, right: string)
    requires AllSpace(right)
    ensures TrimEnd(s + right) == TrimEnd(s)
  {
    if right == "" {
      assert s + right == s;
    } else {
      assert (s + right)[..|s + right| - 1] == s + right[..|right| - 1];
      TrimEndSkips(s, right[..|right| - 1]);
    }
  }

  lemma {:induction false} TrimStartSplits(s: string) returns (left: string)
    ensures AllSpace(left) && s == left + TrimStart(s)
  {
    left := "";
    if s != "" && IsSpace(s[0]) {
      var rest := TrimStartSplits(s[1..]);
      left := [s[0]] + rest;
      assert s == [s[0]] + s[1..];
    }
  }

  lemma {:induction false} TrimEndSplits(s: string) returns (right: string)
    ensures AllSpace(right) && s == TrimEnd(s) + right
  {
    right := "";
    if s != "" && IsSpace(s[|s| - 1]) {
      var rest := TrimEndSplits(s[..|s| - 1]);
      right := rest + [s[|s| - 1]];
      assert s == s[..|s| - 1] + [s[|s| - 1]];
    }
  }

  /** Trimming takes away the white space around a text, all of it, and nothing else. */
  lemma TrimIsTheCore(s: string, core: string)
    ensures core == Trim(s) <==> Padded(s, core)
  {
    if Padded(s, core) {
      var left, right :| AllSpace(left) && AllSpace(right) && s == left + core + right;
      assert s == left + (core + right);
      TrimStartSkips(left, core + right);
      if core == "" {
        assert core + right == right && right + "" == right;
        TrimStartSkips(right, "");
      } else {
        TrimEndSkips(core, right);
      }
    }
    if core == Trim(s) {
      TrimFacts(s);
      var left := TrimStartSplits(s);
      var right := TrimEndSplits(TrimStart(s));
      assert s == left + core + right;
    }
  }

  function NonBlank(cores: seq<string>): seq<string> {
    if cores == [] then []
    else
      var last := cores[|cores| - 1];
      NonBlank(cores[..|cores| - 1]) + if last == "" then [] else [last]
  }

  lemma {:induction false} KeptAreTheCores(pieces: seq<string>, cores: seq<string>)
    requires |pieces| == |cores| && forall i :: 0 <= i < |pieces| ==> Padded(pieces[i], cores[i])
    ensures Kept(pieces) == NonBlank(cores)
  {
    if pieces != [] {
      KeptAreTheCores(pieces[..|pieces| - 1], cores[..|cores| - 1]);
      TrimIsTheCore(pieces[|pieces| - 1], cores[|cores| - 1]);
    }
  }

  /** White space around the items does not matter, and blank items are dropped. */
  lemma SplitReadsThroughSpacing(pieces: seq<string>, cores: seq<string>)
    requires pieces != [] && Separable(pieces)
    requires |pieces| == |cores| && forall i :: 0 <= i < |pieces| ==> Padded(pieces[i], cores[i])
    ensures Split(CommaJoin(pieces)) == NonBlank(cores)
  {
    CuttingTheJoin(pieces);
    KeptAreTheCores(pieces, cores);
  }

  function Weight(pieces: seq<string>): nat {
    if pieces == [] then 0 else Weight(pieces[..|pieces| - 1]) + |pieces[|pieces| - 1]|
  }

  lemma {:induction false} JoinedLength(pieces: seq<string>)
    requires pieces != []
    ensures |CommaJoin(pieces)| == Weight(pieces) + |pieces| - 1
  {
    if |pieces| > 1 {
      JoinedLength(pieces[..|pieces| - 1]);
    } else {
      assert pieces[..0] == [];
    }
  }

  /** Trimming and dropping never grow a list, and leave its size alone only by changing nothing. */
  lemma {:induction false} KeptShrinks(pieces: seq<string>)
    ensures |Kept(pieces)| <= |pieces| && Weight(Kept(pieces)) <= Weight(pieces)
    ensures |Kept(pieces)| == |pieces| && Weight(Kept(pieces)) == Weight(pieces) ==> Kept(pieces) == pieces
  {
    if pieces != [] {
      var front, last := pieces[..|pieces| - 1], pieces[|pieces| - 1];
      KeptShrinks(front);
      TrimFacts(last);
      if Trim(last) != "" {
        assert Kept(pieces)[..|Kept(front)|] == Kept(front);
      } else {
        assert Kept(pieces) == Kept(front);
      }
      assert pieces == front + [last];
    }
  }

  lemma {:induction false} KeptIsClean(pieces: seq<string>)
    ensures forall i :: 0 <= i < |Kept(pieces)| ==> Kept(pieces)[i] != "" && Trimmed(Kept(pieces)[i])
    ensures (forall i :: 0 <= i < |pieces| ==> pieces[i] != "" && Trimmed(pieces[i])) ==> Kept(pieces) == pieces
  {
    if pieces != [] {
      var front, last := pieces[..|pieces| - 1], pieces[|pieces| - 1];
      KeptIsClean(front);
      TrimFacts(last);
      assert pieces == front + [last];
    }
  }

  /** Splitting the comma-join of a list of items gives the list back exactly when every item is non-blank and trimmed
    * and the items are separable; in particular for balanced items without a top-level comma. */
  lemma SplitUndoesJoinIff(items: seq<string>)
    ensures Split(CommaJoin(items)) == items
            <==> Separable(items) && forall i :: 0 <= i < |items| ==> items[i] != "" && Trimmed(items[i])
  {
    if items == [] {
      assert Cut("") == [""] && Trim("") == "" && [""][..0] == [];
      assert Kept([""]) == Kept([""][..0]);
    } else {
      var pieces := Cut(CommaJoin(items));
      KeptIsClean(pieces);
      KeptIsClean(items);
      CutIsTheOnlySeparation(CommaJoin(items), items);
      if Kept(pieces) == items {
        JoiningTheCut(CommaJoin(items));
        JoinedLength(pieces);
        JoinedLength(items);
        KeptShrinks(pieces);
      }
    }
  }

  // ---------------------------------------------------------------------------------------------
  // extractParenColumns
  // ---------------------------------------------------------------------------------------------

  function FirstWord(s: string): string {
    if s == "" || IsSpace(s[0]) then "" else [s[0]] + FirstWord(s[1..])
  }

  function FirstWords(items: seq<string>): (r: seq<string>)
    ensures |r| == |items|
    ensures forall i :: 0 <= i < |items| ==> r[i] == FirstWord(items[i])
  {
    seq(|items|, i requires 0 <= i < |items| => FirstWord(items[i]))
  }

  /** `body` is what stands between the first opening parenthesis of `text` and the one that closes it. */
  ghost predicate FirstGroup(text: string, head: string, body: string, tail: string) {
    '(' !in head && Balanced(body) && text == head + "(" + body + ")" + tail
  }

  method ExtractParenColumns(text: string) returns (result: Result<seq<string>, string>)
    ensures '(' !in text ==> result == Ok([])
    ensures '(' in text ==> (result.Err? <==> forall head, body, tail :: !FirstGroup(text, head, body, tail))
    ensures forall head, body, tail :: FirstGroup(text, head, body, tail) ==> result == Ok(FirstWords(Split(body)))
  {
    var openIndex := 0;
    while openIndex < |text| && text[openIndex] != '('
      invariant openIndex <= |text| && '(' !in text[..openIndex]
    {
      assert text[..openIndex + 1] == text[..openIndex] + [text[openIndex]];
      openIndex := openIndex + 1;
    }
    if openIndex == |text| {
      assert text[..openIndex] == text;
      forall head, body, tail ensures !FirstGroup(text, head, body, tail) {
        assert (head + "(" + body + ")" + tail)[|head|] == '(';
      }
      return Ok([]);
    }
    var close := FindMatchingParen(text, openIndex);
    GroupIsTheMatch(text, openIndex, close);
    if close.None? {
      return Err("unbalanced parentheses");
    }
    var columns := SplitTopLevelCommas(text[openIndex + 1..close.value]);
    result := Ok(FirstWords(columns));
  }

  /** The scan finds the first group if there is one, and nothing otherwise. */
  lemma GroupIsTheMatch(text: string, open: nat, close: Option<nat>)
    requires open < |text| && text[open] == '(' && '(' !in text[..open]
    requires close.Some? ==> open <= close.value < |text| && Closes(text, open, close.value)
                             && forall j :: open <= j < close.value ==> !Closes(text, open, j)
    requires close.None? ==> forall j :: open <= j < |text| ==> !Closes(text, open, j)
    ensures close.Some? ==>
              open < close.value && FirstGroup(text, text[..open], text[open + 1..close.value], text[close.value + 1..])
    ensures forall head, body, tail :: FirstGroup(text, head, body, tail) ==>
              close.Some? && body == text[open + 1..close.value]
  {
    if close.Some? {
      ClosingParenIffContentsBalanced(text, open, close.value);
      assert text == text[..open] + "(" + text[open + 1..close.value] + ")" + text[close.value + 1..];
    }
    forall head, body, tail | FirstGroup(text, head, body, tail)
      ensures close.Some? && body == text[open + 1..close.value]
    {
      GroupOpensAt(text, open, head, body, tail);
      var end := open + 1 + |body|;
      ClosingParenIffContentsBalanced(text, open, end);
      assert close.Some? && close.value == end;
    }
  }

  lemma GroupOpensAt(text: string, open: nat, head: string, body: string, tail: string)
    requires open < |text| && text[open] == '(' && '(' !in text[..open] && FirstGroup(text, head, body, tail)
    ensures |head| == open && open + 1 + |body| < |text| && text[open + 1 + |body|] == ')'
    ensures text[open + 1..open + 1 + |body|] == body
  {
    assert text[|head|] == '(';
    assert forall i :: 0 <= i < open ==> text[..open][i] == text[i];
    assert forall i :: 0 <= i < |head| ==> head[i] == text[i];
  }

  lemma {:induction false} JoinOfBalancedIsBalanced(items: seq<string>)
    requires forall i :: 0 <= i < |items| ==> Balanced(items[i])
    ensures Balanced(CommaJoin(items))
  {
    if |items| > 1 {
      var front, last := CommaJoin(items[..|items| - 1]), items[|items| - 1];
      JoinOfBalancedIsBalanced(items[..|items| - 1]);
      var whole := front + "," + last;
      RunAppend(START, front + ",", last);
      RunAppend(START, front, ",");
      assert Run(START, ",") == After(Run(START, ","[..0]), ',');
      forall i | 0 <= i <= |whole|
        ensures Run(START, whole[..i]).depth >= 0
      {
        if i <= |front| {
          assert whole[..i] == front[..i];
        } else {
          var k := i - |front| - 1;
          assert whole[..i] == front + "," + last[..k];
          RunAppend(START, front + ",", last[..k]);
        }
      }
    }
  }

  /** A column's name ends at the first white space. */
  lemma {:induction false} FirstWordEnds(name: string, rest: string)
    requires forall i :: 0 <= i < |name| ==> !IsSpace(name[i])
    requires rest == "" || IsSpace(rest[0])
    ensures FirstWord(name + rest) == name
  {
    if name == "" {
      assert name + rest == rest;
    } else {
      assert (name + rest)[1..] == name[1..] + rest;
      FirstWordEnds(name[1..], rest);
      assert [name[0]] + name[1..] == name;
    }
  }

  lemma {:induction false} NothingIsBlank(cores: seq<string>)
    requires forall i :: 0 <= i < |cores| ==> cores[i] != ""
    ensures NonBlank(cores) == cores
  {
    if cores != [] {
      NothingIsBlank(cores[..|cores| - 1]);
      Snoc(cores);
    }
  }

  /** `item` is a column's name, perhaps with a sort order or an operator class behind it, and white space around. */
  ghost predicate ColumnItem(item: string, name: string, rest: string) {
    && Balanced(item) && CommaFree(item)
    && name != "" && (forall i :: 0 <= i < |name| ==> !IsSpace(name[i]))
    && (rest == "" || IsSpace(rest[0])) && Padded(item, name + rest)
  }

  lemma ItemIsPiece(item: string, name: string, rest: string)
    requires ColumnItem(item, name, rest)
    ensures CommaFree(item) && Run(START, item) == START && Balanced(item)
    ensures Padded(item, name + rest) && name + rest != "" && FirstWord(name + rest) == name
  {
    FirstWordEnds(name, rest);
  }

  function Written(names: seq<string>, rests: seq<string>): (r: seq<string>)
    requires |names| == |rests|
    ensures |r| == |names|
    ensures forall i :: 0 <= i < |r| ==> r[i] == names[i] + rests[i]
  {
    seq(|names|, i requires 0 <= i < |names| => names[i] + rests[i])
  }

  ghost predicate ColumnItems(items: seq<string>, names: seq<string>, rests: seq<string>) {
    && |items| == |names| == |rests|
    && forall i :: 0 <= i < |items| ==> ColumnItem(items[i], names[i], rests[i])
  }

  lemma ItemsSplitIntoNames(items: seq<string>, names: seq<string>, rests: seq<string>)
    requires ColumnItems(items, names, rests) && items != []
    ensures FirstWords(Split(CommaJoin(items))) == names
  {
    var cores := Written(names, rests);
    forall i | 0 <= i < |items|
      ensures CommaFree(items[i]) && Run(START, items[i]) == START
      ensures Padded(items[i], cores[i]) && cores[i] != "" && FirstWord(cores[i]) == names[i]
    {
      ItemIsPiece(items[i], names[i], rests[i]);
    }
    SplitReadsThroughSpacing(items, cores);
    NothingIsBlank(cores);
  }

  /** A column list written out in parentheses reads back as its columns' names, sort order and operator class stripped,
    * however it is spaced and whatever stands before and after. */
  lemma ColumnsReadBack(head: string, items: seq<string>, names: seq<string>, rests: seq<string>, tail: string)
    requires '(' !in head && ColumnItems(items, names, rests)
    ensures FirstGroup(head + "(" + CommaJoin(items) + ")" + tail, head, CommaJoin(items), tail)
    ensures FirstWords(Split(CommaJoin(items))) == names
  {
    forall i | 0 <= i < |items|
      ensures Balanced(items[i])
    {
      ItemIsPiece(items[i], names[i], rests[i]);
    }
    JoinOfBalancedIsBalanced(items);
    if items == [] {
      SplitUndoesJoinIff(items);
    } else {
      ItemsSplitIntoNames(items, names, rests);
    }
  }
}
