/** The argv tokenizer of minicc/agent/check_commands.py. */
module CommandParts {
  import opened Common

  predicate IsQuote(c: char) {
    c == '"' || c == '\''
  }

  /** Python's `str.isspace` for one character. */
  predicate IsSpace(c: char) {
    || '\U{09}' <= c <= '\U{0d}' || '\U{1c}' <= c <= '\U{20}'
    || c in {'\U{85}', '\U{a0}', '\U{1680}', '\U{2028}', '\U{2029}', '\U{202f}', '\U{205f}', '\U{3000}'}
    || '\U{2000}' <= c <= '\U{200a}'
  }

  /** The quote that is open, if any. */
  type Quote = Option<char>

  /** A backslash counts only in front of the quote that is open. */
  predicate EscapesAt(s: string, i: nat, quote: Quote) {
    i + 1 < |s| && s[i] == '\\' && quote == Some(s[i + 1])
  }

  // ---------- the scanner ----------

  /** `word` is the token being built, None between tokens. */
  datatype Scan = Scan(tokens: seq<string>, word: Option<string>, quote: Quote)

  function Extended(st: Scan, c: char): Scan {
    st.(word := Some((if st.word.Some? then st.word.value else "") + [c]))
  }

  function Ended(st: Scan): Scan {
    if st.word.None? then st else st.(tokens := st.tokens + [st.word.value], word := None)
  }

  function Opened(st: Scan, c: char): Scan {
    st.(word := Some(if st.word.Some? then st.word.value else ""), quote := Some(c))
  }

  function Consumed(st: Scan, c: char): Scan {
    if IsQuote(c) then
      if st.quote.None? then Opened(st, c)
      else if st.quote == Some(c) then st.(quote := None)
      else Extended(st, c)
    else if IsSpace(c) && st.quote.None? then Ended(st)
    else Extended(st, c)
  }

  function ScanFrom(s: string, i: nat, st: Scan): Scan
    requires i <= |s|
    decreases |s| - i
  {
    if i == |s| then st
    else if EscapesAt(s, i, st.quote) then ScanFrom(s, i + 2, Extended(st, s[i + 1]))
    else ScanFrom(s, i + 1, Consumed(st, s[i]))
  }

  function Finish(st: Scan): Option<seq<string>> {
    if st.quote.Some? then None else Some(Ended(st).tokens)
  }

  /** The argv of a command line; None stands for the error on an unclosed quote. */
  function Parse(s: string): Option<seq<string>> {
    Finish(ScanFrom(s, 0, Scan([], None, None)))
  }

  method CommandParts(command: string) returns (r: Option<seq<string>>)
    ensures r == Parse(command)
  {
    var tokens: seq<string> := [];
    var current: string := "";
    var quote: Quote := None;
    var started := false;
    var index := 0;
    while index < |command|
      invariant 0 <= index <= |command|
      invariant !started ==> current == "" && quote.None?
      invariant ScanFrom(command, 0, Scan([], None, None))
             == ScanFrom(command, index, Scan(tokens, if started then Some(current) else None, quote))
      decreases |command| - index
    {
      var c := command[index];
      if c == '\\' && index + 1 < |command| && quote == Some(command[index + 1]) {
        current := current + [command[index + 1]];
        index := index + 2;
        continue;
      }
      if IsQuote(c) {
        if quote.None? {
          quote := Some(c);
          started := true;
        } else if quote == Some(c) {
          quote := None;
        } else {
          current := current + [c];
        }
      } else if IsSpace(c) && quote.None? {
        if started {
          tokens := tokens + [current];
          current := "";
          started := false;
        }
      } else {
        current := current + [c];
        started := true;
      }
      index := index + 1;
    }
    if quote.Some? {
      return None;
    }
    if started {
      tokens := tokens + [current];
    }
    r := Some(tokens);
  }

  // ---------- when it fails ----------

  /** Quotes alone: which one is open after the rest of the line. */
  function OpenAfter(s: string, i: nat, quote: Quote): Quote
    requires i <= |s|
    decreases |s| - i
  {
    if i == |s| then quote
    else if EscapesAt(s, i, quote) then OpenAfter(s, i + 2, quote)
    else if !IsQuote(s[i]) then OpenAfter(s, i + 1, quote)
    else if quote.None? then OpenAfter(s, i + 1, Some(s[i]))
    else OpenAfter(s, i + 1, if quote == Some(s[i]) then None else quote)
  }

  lemma {:induction false} QuotesDecide(s: string, i: nat, st: Scan)
    requires i <= |s|
    ensures ScanFrom(s, i, st).quote == OpenAfter(s, i, st.quote)
    decreases |s| - i
  {
    if i < |s| {
      if EscapesAt(s, i, st.quote) {
        QuotesDecide(s, i + 2, Extended(st, s[i + 1]));
      } else {
        QuotesDecide(s, i + 1, Consumed(st, s[i]));
      }
    }
  }

  /** The parser refuses exactly the lines that leave a quote open. */
  lemma FailsExactlyOnOpenQuote(s: string)
    ensures Parse(s).None? <==> OpenAfter(s, 0, None).Some?
  {
    QuotesDecide(s, 0, Scan([], None, None));
  }

  // ---------- nothing lost, nothing invented ----------

  function Concat(tokens: seq<string>): string {
    if tokens == [] then "" else Concat(tokens[..|tokens| - 1]) + tokens[|tokens| - 1]
  }

  /** The characters that stand for themselves, judged by the open quote alone. */
  function Literal(s: string, i: nat, quote: Quote): string
    requires i <= |s|
    decreases |s| - i
  {
    if i == |s| then ""
    else if EscapesAt(s, i, quote) then [s[i + 1]] + Literal(s, i + 2, quote)
    else if IsQuote(s[i]) && quote.None? then Literal(s, i + 1, Some(s[i]))
    else if IsQuote(s[i]) && quote == Some(s[i]) then Literal(s, i + 1, None)
    else if IsSpace(s[i]) && quote.None? then Literal(s, i + 1, quote)
    else [s[i]] + Literal(s, i + 1, quote)
  }

  function Text(st: Scan): string {
    Concat(st.tokens) + if st.word.Some? then st.word.value else ""
  }

  lemma ConcatSnoc(tokens: seq<string>, word: string)
    ensures Concat(tokens + [word]) == Concat(tokens) + word
  {
    assert (tokens + [word])[..|tokens|] == tokens;
  }

  lemma EndedText(st: Scan)
    ensures Text(Ended(st)) == Text(st)
  {
    if st.word.Some? {
      ConcatSnoc(st.tokens, st.word.value);
      assert Concat(st.tokens + [st.word.value]) + "" == Concat(st.tokens + [st.word.value]);
    }
  }

  lemma ExtendedText(st: Scan, c: char)
    ensures Text(Extended(st, c)) == Text(st) + [c]
  {
    var word := if st.word.Some? then st.word.value else "";
    assert Concat(st.tokens) + (word + [c]) == Concat(st.tokens) + word + [c];
  }

  lemma ConsumedText(st: Scan, c: char)
    ensures Text(Consumed(st, c)) == Text(st)
            + if IsQuote(c) && (st.quote.None? || st.quote == Some(c)) then ""
              else if !IsQuote(c) && IsSpace(c) && st.quote.None? then "" else [c]
  {
    EndedText(st);
    ExtendedText(st, c);
    assert Text(st) + "" == Text(st);
  }

  lemma {:induction false} ScanKeepsText(s: string, i: nat, st: Scan)
    requires i <= |s|
    ensures Text(ScanFrom(s, i, st)) == Text(st) + Literal(s, i, st.quote)
    decreases |s| - i
  {
    if i == |s| {
      assert Text(st) + "" == Text(st);
    } else if EscapesAt(s, i, st.quote) {
      ExtendedText(st, s[i + 1]);
      ScanKeepsText(s, i + 2, Extended(st, s[i + 1]));
      assert Text(st) + [s[i + 1]] + Literal(s, i + 2, st.quote) == Text(st) + ([s[i + 1]] + Literal(s, i + 2, st.quote));
    } else {
      var next := Consumed(st, s[i]);
      ConsumedText(st, s[i]);
      ScanKeepsText(s, i + 1, next);
      var more := Literal(s, i + 1, next.quote);
      assert Text(st) + "" + more == Text(st) + more;
      assert Text(st) + [s[i]] + more == Text(st) + ([s[i]] + more);
    }
  }

  /**
   * Read one after the other, the tokens are the line without its separating
   * blanks, its delimiting quotes and the backslashes that escape a quote;
   * every other backslash survives.
   */
  lemma TokensAreTheLiteralText(s: string)
    requires Parse(s).Some?
    ensures Concat(Parse(s).value) == Literal(s, 0, None)
  {
    var start := Scan([], None, None);
    ScanKeepsText(s, 0, start);
    EndedText(ScanFrom(s, 0, start));
    assert Text(start) == "";
    assert Concat(Parse(s).value) + "" == Concat(Parse(s).value);
  }

  // ---------- round trip ----------

  /** A blank or a quote goes inside a pair of quotes of the other kind. */
  function Shown(c: char): string {
    if c == '"' then ['\'', c, '\'']
    else if IsQuote(c) || IsSpace(c) then ['"', c, '"']
    else [c]
  }

  function ShownAll(token: string): string {
    if token == "" then "" else ShownAll(token[..|token| - 1]) + Shown(token[|token| - 1])
  }

  /** An empty token needs a pair of quotes of its own. */
  function PrintToken(token: string): string {
    if token == "" then ['"', '"'] else ShownAll(token)
  }

  function Print(tokens: seq<string>): string {
    if tokens == [] then ""
    else Print(tokens[..|tokens| - 1]) + PrintToken(tokens[|tokens| - 1]) + " "
  }

  /** With no quote open there is no lookahead, so a line can be scanned in two parts. */
  lemma {:induction false} ScanInParts(a: string, b: string, i: nat, st: Scan)
    requires i <= |a| && OpenAfter(a, i, st.quote).None?
    ensures ScanFrom(a + b, i, st) == ScanFrom(a + b, |a|, ScanFrom(a, i, st))
    decreases |a| - i
  {
    if i < |a| {
      assert (a + b)[i] == a[i];
      if EscapesAt(a, i, st.quote) {
        assert (a + b)[i + 1] == a[i + 1];
        ScanInParts(a, b, i + 2, Extended(st, a[i + 1]));
      } else {
        assert !EscapesAt(a + b, i, st.quote) by {
          if i + 1 < |a| {
            assert (a + b)[i + 1] == a[i + 1];
          }
        }
        ScanInParts(a, b, i + 1, Consumed(st, a[i]));
      }
    }
  }

  lemma {:induction false} ScanShifted(a: string, b: string, i: nat, st: Scan)
    requires i <= |b|
    ensures ScanFrom(a + b, |a| + i, st) == ScanFrom(b, i, st)
    decreases |b| - i
  {
    if i < |b| {
      assert (a + b)[|a| + i] == b[i];
      if i + 1 < |b| {
        assert (a + b)[|a| + i + 1] == b[i + 1];
      }
      if EscapesAt(b, i, st.quote) {
        ScanShifted(a, b, i + 2, Extended(st, b[i + 1]));
      } else {
        ScanShifted(a, b, i + 1, Consumed(st, b[i]));
      }
    }
  }

  lemma ScanAppend(a: string, b: string, st: Scan)
    requires st.quote.None? && OpenAfter(a, 0, None).None?
    ensures ScanFrom(a + b, 0, st) == ScanFrom(b, 0, ScanFrom(a, 0, st))
    ensures ScanFrom(a, 0, st).quote.None?
  {
    ScanInParts(a, b, 0, st);
    QuotesDecide(a, 0, st);
    ScanShifted(a, b, 0, ScanFrom(a, 0, st));
  }

  lemma ShownScans(c: char, st: Scan)
    requires st.quote.None?
    ensures ScanFrom(Shown(c), 0, st) == Extended(st, c)
    ensures OpenAfter(Shown(c), 0, None).None?
  {
    var s := Shown(c);
    if |s| == 3 {
      var q := s[0];
      var inside := Consumed(st, q);
      assert !EscapesAt(s, 0, None) && !EscapesAt(s, 1, Some(q)) && !EscapesAt(s, 2, Some(q));
      assert Consumed(inside, c) == Extended(inside, c);
      assert ScanFrom(s, 3, Extended(st, c)) == Extended(st, c);
      assert ScanFrom(s, 2, Extended(inside, c)) == Extended(st, c);
      assert ScanFrom(s, 1, inside) == Extended(st, c);
      assert OpenAfter(s, 3, None) == None;
      assert OpenAfter(s, 2, Some(q)) == None;
      assert OpenAfter(s, 1, Some(q)) == None;
    } else {
      assert ScanFrom(s, 1, Extended(st, c)) == Extended(st, c);
    }
  }

  /** A word as the scanner sees it after the characters of `token`. */
  function Grown(st: Scan, token: string): Scan {
    st.(word := Some((if st.word.Some? then st.word.value else "") + token))
  }

  lemma QuotesOfAppend(a: string, b: string)
    requires OpenAfter(a, 0, None).None? && OpenAfter(b, 0, None).None?
    ensures OpenAfter(a + b, 0, None).None?
  {
    var start := Scan([], None, None);
    ScanAppend(a, b, start);
    QuotesDecide(a + b, 0, start);
    QuotesDecide(b, 0, ScanFrom(a, 0, start));
  }

  lemma {:induction false} ShownAllScans(token: string, st: Scan)
    requires token != "" && st.quote.None?
    ensures ScanFrom(ShownAll(token), 0, st) == Grown(st, token)
    ensures OpenAfter(ShownAll(token), 0, None).None?
  {
    var init, c := token[..|token| - 1], token[|token| - 1];
    ShownScans(c, if init == "" then st else Grown(st, init));
    if init == "" {
      assert ShownAll(token) == Shown(c);
      assert token == [c];
    } else {
      ShownAllScans(init, st);
      ScanAppend(ShownAll(init), Shown(c), st);
      QuotesOfAppend(ShownAll(init), Shown(c));
      assert token == init + [c];
      var word := if st.word.Some? then st.word.value else "";
      assert word + init + [c] == word + (init + [c]);
    }
  }

  lemma PrintTokenScans(token: string, st: Scan)
    requires st.quote.None? && st.word.None?
    ensures ScanFrom(PrintToken(token), 0, st) == st.(word := Some(token))
    ensures OpenAfter(PrintToken(token), 0, None).None?
  {
    if token == "" {
      var s := PrintToken(token);
      assert !EscapesAt(s, 0, None) && !EscapesAt(s, 1, Some('"'));
      assert ScanFrom(s, 2, st.(word := Some(""))) == st.(word := Some(""));
      assert OpenAfter(s, 2, None) == None;
      assert OpenAfter(s, 1, Some('"')) == None;
    } else {
      ShownAllScans(token, st);
      assert "" + token == token;
    }
  }

  lemma BlankEndsWord(st: Scan)
    requires st.quote.None?
    ensures ScanFrom(" ", 0, st) == Ended(st)
    ensures OpenAfter(" ", 0, None).None?
  {
    assert ScanFrom(" ", 1, Ended(st)) == Ended(st);
    assert OpenAfter(" ", 1, None) == None;
  }

  lemma {:induction false} PrintScans(tokens: seq<string>)
    ensures ScanFrom(Print(tokens), 0, Scan([], None, None)) == Scan(tokens, None, None)
    ensures OpenAfter(Print(tokens), 0, None).None?
  {
    if tokens != [] {
      var init, token := tokens[..|tokens| - 1], tokens[|tokens| - 1];
      var start := Scan([], None, None);
      PrintScans(init);
      PrintTokenScans(token, Scan(init, None, None));
      BlankEndsWord(Scan(init, Some(token), None));
      ScanAppend(Print(init), PrintToken(token), start);
      QuotesOfAppend(Print(init), PrintToken(token));
      ScanAppend(Print(init) + PrintToken(token), " ", start);
      QuotesOfAppend(Print(init) + PrintToken(token), " ");
      assert tokens == init + [token];
    }
  }

  /** Parsing undoes printing, for every token list: blanks, quotes, backslashes and empty tokens included. */
  lemma ParseUndoesPrint(tokens: seq<string>)
    ensures Parse(Print(tokens)) == Some(tokens)
  {
    PrintScans(tokens);
  }

  // ---------- whole tokens in double quotes ----------

  /** Each double quote of the token with a backslash in front. */
  function Escape(token: string): string {
    if token == "" then "" else (if token[0] == '"' then "\\\"" else [token[0]]) + Escape(token[1..])
  }

  function Quoted(token: string): string {
    "\"" + Escape(token) + "\""
  }

  function QuotedLine(tokens: seq<string>): string {
    if tokens == [] then "" else Quoted(tokens[0]) + " " + QuotedLine(tokens[1..])
  }

  predicate EndsInBackslash(token: string) {
    token != "" && token[|token| - 1] == '\\'
  }

  /** `part` stands in `s` from `i` on. */
  predicate PartAt(s: string, i: nat, part: string) {
    i + |part| <= |s| && forall k :: 0 <= k < |part| ==> part[k] == s[i + k]
  }

  lemma PartSplits(s: string, i: nat, a: string, b: string)
    requires PartAt(s, i, a + b)
    ensures PartAt(s, i, a) && PartAt(s, i + |a|, b)
  {
    assert forall k :: 0 <= k < |a| ==> a[k] == (a + b)[k];
    assert forall k :: 0 <= k < |b| ==> b[k] == (a + b)[|a| + k];
  }

  /** Inside double quotes all of an escaped token lands in one word, unless its last backslash meets a quote. */
  lemma {:induction false} EscapedScans(token: string, s: string, i: nat, st: Scan)
    requires st.quote == Some('"') && st.word.Some?
    requires PartAt(s, i, Escape(token)) && i + |Escape(token)| < |s|
    requires EndsInBackslash(token) ==> s[i + |Escape(token)|] != '"'
    ensures ScanFrom(s, i, st) == ScanFrom(s, i + |Escape(token)|, Grown(st, token))
    decreases |token|
  {
    if token == "" {
      assert st.word.value + "" == st.word.value;
    } else {
      var rest := token[1..];
      EscapedHead(token, s, i);
      assert EndsInBackslash(rest) ==> EndsInBackslash(token);
      EscapedScans(rest, s, if token[0] == '"' then i + 2 else i + 1, Extended(st, token[0]));
      assert st.word.value + [token[0]] + rest == st.word.value + token;
    }
  }

  /** How an escaped token begins: no backslash of its own meets a quote. */
  lemma EscapedHead(token: string, s: string, i: nat)
    requires token != "" && PartAt(s, i, Escape(token)) && i + |Escape(token)| < |s|
    requires EndsInBackslash(token) ==> s[i + |Escape(token)|] != '"'
    ensures var c, rest := token[0], Escape(token[1..]);
      if c == '"' then EscapesAt(s, i, Some('"')) && s[i + 1] == '"' && |Escape(token)| == 2 + |rest| && PartAt(s, i + 2, rest)
      else !EscapesAt(s, i, Some('"')) && s[i] == c && |Escape(token)| == 1 + |rest| && PartAt(s, i + 1, rest)
  {
    EscapeFirst(token[1..]);
    HeadAt(s, i, token[0], Escape(token[1..]));
  }

  lemma EscapeFirst(token: string)
    ensures Escape(token) == "" <==> token == ""
    ensures token != "" ==> Escape(token)[0] != '"'
  {
  }

  lemma HeadAt(s: string, i: nat, c: char, rest: string)
    requires c == '"' ==> PartAt(s, i, "\\\"" + rest)
    requires c != '"' ==> PartAt(s, i, [c] + rest)
    ensures c == '"' ==> s[i] == '\\' && s[i + 1] == '"' && PartAt(s, i + 2, rest)
    ensures c != '"' ==> s[i] == c && PartAt(s, i + 1, rest) && (rest != "" ==> s[i + 1] == rest[0])
  {
    var shown := if c == '"' then "\\\"" else [c];
    PartSplits(s, i, shown, rest);
    assert shown[0] == s[i];
    assert c == '"' ==> shown[1] == s[i + 1];
  }

  lemma CharAt(s: string, i: nat, c: char)
    requires PartAt(s, i, [c])
    ensures s[i] == c
  {
    assert [c][0] == c;
  }

  lemma TwoAtTheEnd(s: string, i: nat, a: string, b: string, c: char, d: char)
    requires PartAt(s, i, a + (b + [c]) + [d])
    ensures PartAt(s, i, a + b) && s[i + |a| + |b|] == c && s[i + |a| + |b| + 1] == d
  {
    assert a + (b + [c]) + [d] == a + b + [c, d];
    PartSplits(s, i, a + b, [c, d]);
    assert [c, d] == [c] + [d];
    PartSplits(s, i + |a + b|, [c], [d]);
    CharAt(s, i + |a + b|, c);
    CharAt(s, i + |a + b| + 1, d);
  }

  /** An opening quote and the escaped token behind it. */
  lemma OpenedScans(token: string, s: string, i: nat, tokens: seq<string>)
    requires PartAt(s, i, "\"" + Escape(token)) && i + 1 + |Escape(token)| < |s|
    requires EndsInBackslash(token) ==> s[i + 1 + |Escape(token)|] != '"'
    ensures ScanFrom(s, i, Scan(tokens, None, None)) == ScanFrom(s, i + 1 + |Escape(token)|, Scan(tokens, Some(token), Some('"')))
  {
    PartSplits(s, i, "\"", Escape(token));
    CharAt(s, i, '"');
    EscapedScans(token, s, i + 1, Scan(tokens, Some(""), Some('"')));
    assert "" + token == token;
  }

  /** A quoted token is read back whole, and the blank behind it ends it. */
  lemma QuotedScans(token: string, s: string, i: nat, tokens: seq<string>)
    requires PartAt(s, i, Quoted(token) + " ") && !EndsInBackslash(token)
    ensures ScanFrom(s, i, Scan(tokens, None, None)) == ScanFrom(s, i + |Quoted(token)| + 1, Scan(tokens + [token], None, None))
  {
    var e := i + 1 + |Escape(token)|;
    PartSplits(s, i, Quoted(token), " ");
    PartSplits(s, i, "\"" + Escape(token), "\"");
    CharAt(s, e, '"');
    CharAt(s, e + 1, ' ');
    OpenedScans(token, s, i, tokens);
    assert ScanFrom(s, e, Scan(tokens, Some(token), Some('"'))) == ScanFrom(s, e + 1, Scan(tokens, Some(token), None));
  }

  /** What has been read is never taken back: the tokens stay and the word only grows. */
  lemma {:induction false} ReadingKeeps(s: string, i: nat, st: Scan)
    requires i <= |s|
    ensures var all := Ended(ScanFrom(s, i, st)).tokens;
      st.tokens <= all && (st.word.Some? ==> |all| > |st.tokens| && st.word.value <= all[|st.tokens|])
    decreases |s| - i
  {
    if i < |s| {
      if EscapesAt(s, i, st.quote) {
        ReadingKeeps(s, i + 2, Extended(st, s[i + 1]));
      } else {
        ReadingKeeps(s, i + 1, Consumed(st, s[i]));
      }
    }
  }

  /** Behind a token that ends in a backslash the quote is still open: the backslash took the closing one along. */
  lemma BackslashTakesTheQuote(token: string, s: string, i: nat, tokens: seq<string>)
    requires PartAt(s, i, Quoted(token)) && EndsInBackslash(token)
    ensures ScanFrom(s, i, Scan(tokens, None, None))
         == ScanFrom(s, i + |Quoted(token)|, Scan(tokens, Some(token[..|token| - 1] + "\""), Some('"')))
  {
    var body := token[..|token| - 1];
    BackslashEnd(token, s, i);
    OpenedScans(body, s, i, tokens);
    TakesTheQuote(s, i + 1 + |Escape(body)|, Scan(tokens, Some(body), Some('"')));
  }

  lemma BackslashEnd(token: string, s: string, i: nat)
    requires PartAt(s, i, Quoted(token)) && EndsInBackslash(token)
    ensures var body := Escape(token[..|token| - 1]); var e := i + 1 + |body|;
      |Quoted(token)| == |body| + 3 && PartAt(s, i, "\"" + body) && s[e] == '\\' && s[e + 1] == '"'
  {
    EscapeOfTheEnd(token);
    TwoAtTheEnd(s, i, "\"", Escape(token[..|token| - 1]), '\\', '"');
  }

  lemma TakesTheQuote(s: string, e: nat, st: Scan)
    requires e + 1 < |s| && s[e] == '\\' && s[e + 1] == '"' && st.quote == Some('"') && st.word.Some?
    ensures ScanFrom(s, e, st) == ScanFrom(s, e + 2, st.(word := Some(st.word.value + "\"")))
  {
  }

  /** So it is never read back as it was. */
  lemma BackslashIsLost(token: string, s: string, i: nat, tokens: seq<string>)
    requires i <= |s| && EndsInBackslash(token)
    ensures var all := Ended(ScanFrom(s, i, Scan(tokens, Some(token[..|token| - 1] + "\""), Some('"')))).tokens;
      |all| > |tokens| && all[|tokens|] != token
  {
    var word := token[..|token| - 1] + "\"";
    ReadingKeeps(s, i, Scan(tokens, Some(word), Some('"')));
    var all := Ended(ScanFrom(s, i, Scan(tokens, Some(word), Some('"')))).tokens;
    assert all[|tokens|][|token| - 1] == word[|token| - 1] == '"';
  }

  lemma {:induction false} EscapeOfTheEnd(token: string)
    requires EndsInBackslash(token)
    ensures Escape(token) == Escape(token[..|token| - 1]) + "\\"
  {
    if |token| > 1 {
      EscapeOfTheEnd(token[1..]);
      assert token[1..][..|token| - 2] == token[..|token| - 1][1..];
    }
  }

  /** A line whose first token ends in a backslash is not read back. */
  lemma LineIsLost(tokens: seq<string>, s: string, i: nat, done: seq<string>)
    requires tokens != [] && EndsInBackslash(tokens[0]) && PartAt(s, i, Quoted(tokens[0]) + " ")
    ensures Finish(ScanFrom(s, i, Scan(done, None, None))) != Some(done + tokens)
  {
    PartSplits(s, i, Quoted(tokens[0]), " ");
    BackslashTakesTheQuote(tokens[0], s, i, done);
    BackslashIsLost(tokens[0], s, i + |Quoted(tokens[0])|, done);
    assert (done + tokens)[|done|] == tokens[0];
  }

  lemma {:induction false} QuotedLineScans(tokens: seq<string>, s: string, i: nat, done: seq<string>)
    requires i + |QuotedLine(tokens)| == |s| && PartAt(s, i, QuotedLine(tokens))
    ensures var r := Finish(ScanFrom(s, i, Scan(done, None, None)));
      r == Some(done + tokens) <==> forall k :: 0 <= k < |tokens| ==> !EndsInBackslash(tokens[k])
    decreases |tokens|
  {
    if tokens == [] {
      assert done + tokens == done;
    } else {
      var token, rest := tokens[0], tokens[1..];
      PartSplits(s, i, Quoted(token) + " ", QuotedLine(rest));
      if EndsInBackslash(token) {
        LineIsLost(tokens, s, i, done);
      } else {
        QuotedScans(token, s, i, done);
        QuotedLineScans(rest, s, i + |Quoted(token)| + 1, done + [token]);
        assert done + [token] + rest == done + tokens;
        assert forall k :: 0 <= k < |rest| ==> rest[k] == tokens[k + 1];
      }
    }
  }

  /**
   * Whole tokens in double quotes, with their own double quotes escaped, are
   * read back exactly when none of them ends in a backslash.
   */
  lemma QuotedLineIsReadBackExactly(tokens: seq<string>)
    ensures Parse(QuotedLine(tokens)) == Some(tokens) <==> forall k :: 0 <= k < |tokens| ==> !EndsInBackslash(tokens[k])
  {
    var s := QuotedLine(tokens);
    QuotedLineScans(tokens, s, 0, []);
    assert [] + tokens == tokens;
  }

  // ---------- lines without quotes ----------

  predicate Plain(token: string) {
    token != "" && forall i :: 0 <= i < |token| ==> !IsSpace(token[i]) && !IsQuote(token[i])
  }

  predicate PlainScan(st: Scan) {
    st.quote.None? && (st.word.Some? ==> Plain(st.word.value))
    && forall i :: 0 <= i < |st.tokens| ==> Plain(st.tokens[i])
  }

  lemma {:induction false} PlainLineScan(s: string, i: nat, st: Scan)
    requires i <= |s| && PlainScan(st)
    requires forall k :: 0 <= k < |s| ==> !IsQuote(s[k])
    ensures PlainScan(ScanFrom(s, i, st))
    decreases |s| - i
  {
    if i < |s| {
      PlainLineScan(s, i + 1, Consumed(st, s[i]));
    }
  }

  /** Without quotes the line always parses, and no token is empty or holds a blank. */
  lemma PlainLinesSplitOnBlanks(s: string)
    requires forall k :: 0 <= k < |s| ==> !IsQuote(s[k])
    ensures Parse(s).Some?
    ensures forall i :: 0 <= i < |Parse(s).value| ==> Plain(Parse(s).value[i])
    ensures Concat(Parse(s).value) == Literal(s, 0, None)
  {
    PlainLineScan(s, 0, Scan([], None, None));
    TokensAreTheLiteralText(s);
  }
}
