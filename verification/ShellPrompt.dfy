/** The tokenizer of the shell prompt: backslashes, two kinds of quotes, blanks. */
module ShellPrompt {
  import opened Results
  import opened Texts

  predicate IsQuote(c: char) { c == '\'' || c == '"' }

  predicate IsBlank(c: char) { c == ' ' || c == '\t' }

  predicate IsSpecial(c: char) { c == '\\' || IsQuote(c) || IsBlank(c) }

  // ---- what a line means

  /** The tokens of a line that starts outside quotes, or inside the given ones. */
  function Tokens(line: string, quote: Option<char>): seq<Token> {
    if line == [] then []
    else if line[0] == '\\' then
      if |line| == 1 then [Lit('\\')] else [Lit(line[1])] + Tokens(line[2..], quote)
    else if quote == Some(line[0]) then Tokens(line[1..], None)
    else if quote.Some? then [Lit(line[0])] + Tokens(line[1..], quote)
    else if IsQuote(line[0]) then Tokens(line[1..], Some(line[0]))
    else [if IsBlank(line[0]) then Blank else Lit(line[0])] + Tokens(line[1..], None)
  }

  /** Every quote character that opens also closes; closed says that the line does not end in an
      unescaped backslash either. */
  predicate Balanced(line: string, quote: Option<char>, closed: bool) {
    if line == [] then quote.None?
    else if line[0] == '\\' then
      if |line| == 1 then quote.None? && !closed else Balanced(line[2..], quote, closed)
    else if quote == Some(line[0]) then Balanced(line[1..], None, closed)
    else if quote.Some? then Balanced(line[1..], quote, closed)
    else if IsQuote(line[0]) then Balanced(line[1..], Some(line[0]), closed)
    else Balanced(line[1..], None, closed)
  }

  // ---- the code

  method Split(line: string) returns (r: Result<seq<string>>)
    ensures r.Err? <==> !Balanced(line, None, false)
    ensures r.Ok? ==> r.value == Words("", Tokens(line, None))
    ensures r.Ok? ==> forall w :: w in r.value ==> w != ""
  {
    var fields: seq<string> := [];
    var b := "";
    var quote: Option<char> := None;
    var escaped := false;
    assert Rest(line, 0, false) == line;
    for i := 0 to |line|
      invariant Balanced(line, None, false) <==> Balanced(Rest(line, i, escaped), quote, false)
      invariant Words("", Tokens(line, None)) == fields + Words(b, Tokens(Rest(line, i, escaped), quote))
    {
      var c := line[i];
      RestStep(line, i, escaped);
      if escaped {
        b := b + [c];
        escaped := false;
      } else if c == '\\' {
        escaped := true;
      } else if quote.Some? {
        if c == quote.value {
          quote := None;
        } else {
          b := b + [c];
        }
      } else if IsQuote(c) {
        quote := Some(c);
      } else if IsBlank(c) {
        if |b| > 0 {
          fields := fields + [b];
          b := "";
        }
      } else {
        b := b + [c];
      }
    }
    if escaped {
      b := b + ['\\'];
    }
    NoEmptyWord("", Tokens(line, None));
    if quote.Some? {
      return Err;
    }
    if |b| > 0 {
      fields := fields + [b];
    }
    return Ok(fields);
  }

  /** What the loop has still to read, with the backslash it remembers. */
  ghost function Rest(line: string, i: nat, escaped: bool): string
    requires i <= |line|
  {
    (if escaped then ['\\'] else []) + line[i..]
  }

  lemma RestStep(line: string, i: nat, escaped: bool)
    requires i < |line|
    ensures !escaped ==> Rest(line, i, escaped)[0] == line[i] && Rest(line, i, escaped)[1..] == Rest(line, i + 1, false)
    ensures escaped ==> Rest(line, i, escaped)[0] == '\\' && Rest(line, i, escaped)[1] == line[i]
    ensures escaped ==> Rest(line, i, escaped)[2..] == Rest(line, i + 1, false)
    ensures line[i] == '\\' && !escaped ==> Rest(line, i, escaped) == Rest(line, i + 1, true)
  {
  }

  // ---- failure

  /** No quote character q outside a backslash pair. */
  predicate FreeOf(s: string, q: char) {
    s == [] ||
    if s[0] == '\\' then |s| == 1 || FreeOf(s[2..], q) else s[0] != q && FreeOf(s[1..], q)
  }

  /** After a closed part the line opens a quote that no unescaped one closes. */
  predicate LeftOpen(line: string, i: nat) {
    && i < |line| && Balanced(line[..i], None, true)
    && (line[i] == '\'' || line[i] == '"') && FreeOf(line[i + 1..], line[i])
  }

  /** A line fails exactly when an unescaped quote is left open. */
  lemma FailsWhenLeftOpen(line: string)
    ensures !Balanced(line, None, false) <==> exists i: nat :: LeftOpen(line, i)
  {
    if !Balanced(line, None, false) {
      var i := LeftOpenAt(line);
    }
    forall i: nat | LeftOpen(line, i)
      ensures !Balanced(line, None, false)
    {
      assert line == line[..i] + line[i..];
      AfterClosed(line[..i], None, line[i..]);
      FreeNeverCloses(line[i + 1..], line[i]);
    }
  }

  lemma {:induction false} FreeNeverCloses(s: string, q: char)
    requires IsQuote(q)
    ensures FreeOf(s, q) ==> !Balanced(s, Some(q), false)
    decreases |s|
  {
    if s != [] && s[0] == '\\' {
      if |s| > 1 {
        FreeNeverCloses(s[2..], q);
      }
    } else if s != [] {
      FreeNeverCloses(s[1..], q);
    }
  }

  /** After a closed part a line goes on as if it started there. */
  lemma AfterClosed(s: string, quote: Option<char>, t: string)
    requires Balanced(s, quote, true)
    ensures Tokens(s + t, quote) == Tokens(s, quote) + Tokens(t, None)
    ensures forall closed :: Balanced(s + t, quote, closed) <==> Balanced(t, None, closed)
  {
    TokensAfter(s, quote, t);
    BalancedAfter(s, quote, t, true);
    BalancedAfter(s, quote, t, false);
  }

  lemma {:induction false} TokensAfter(s: string, quote: Option<char>, t: string)
    requires Balanced(s, quote, true)
    ensures Tokens(s + t, quote) == Tokens(s, quote) + Tokens(t, None)
    decreases |s|
  {
    if s == [] {
      assert s + t == t;
    } else if s[0] == '\\' {
      assert (s + t)[2..] == s[2..] + t;
      TokensAfter(s[2..], quote, t);
    } else {
      assert (s + t)[1..] == s[1..] + t;
      TokensAfter(s[1..], NextQuote(s[0], quote), t);
    }
  }

  lemma {:induction false} BalancedAfter(s: string, quote: Option<char>, t: string, closed: bool)
    requires Balanced(s, quote, true)
    ensures Balanced(s + t, quote, closed) <==> Balanced(t, None, closed)
    decreases |s|
  {
    if s == [] {
      assert s + t == t;
    } else if s[0] == '\\' {
      assert (s + t)[2..] == s[2..] + t;
      BalancedAfter(s[2..], quote, t, closed);
    } else {
      assert (s + t)[1..] == s[1..] + t;
      BalancedAfter(s[1..], NextQuote(s[0], quote), t, closed);
    }
  }

  ghost function NextQuote(c: char, quote: Option<char>): Option<char> {
    if quote == Some(c) then None
    else if quote.Some? then quote
    else if IsQuote(c) then Some(c) else None
  }

  lemma {:induction false} LeftOpenAt(line: string) returns (i: nat)
    requires !Balanced(line, None, false)
    ensures LeftOpen(line, i)
    decreases |line|
  {
    if IsQuote(line[0]) && FreeOf(line[1..], line[0]) {
      return 0;
    }
    var step := ClosedStart(line);
    assert line == line[..step] + line[step..];
    AfterClosed(line[..step], None, line[step..]);
    var j := LeftOpenAt(line[step..]);
    LeftOpenLater(line, step, j);
    i := step + j;
  }

  lemma ClosedStart(line: string) returns (step: nat)
    requires !Balanced(line, None, false) && !(IsQuote(line[0]) && FreeOf(line[1..], line[0]))
    ensures 0 < step <= |line| && Balanced(line[..step], None, true)
  {
    step := if line[0] == '\\' then 2 else 1;
    if IsQuote(line[0]) {
      var n := ClosesAfter(line[1..], line[0]);
      step := 1 + n;
      assert line[..step] == [line[0]] + line[1..][..n];
      assert line[..step][1..] == line[1..][..n];
    } else {
      assert line[..step][step..] == [];
    }
  }

  lemma LeftOpenLater(line: string, step: nat, j: nat)
    requires step <= |line| && Balanced(line[..step], None, true) && LeftOpen(line[step..], j)
    ensures LeftOpen(line, step + j)
  {
    assert line[..step + j] == line[..step] + line[step..][..j];
    AfterClosed(line[..step], None, line[step..][..j]);
    assert line[step + j + 1..] == line[step..][j + 1..];
  }

  /** The end of a quoted part. */
  lemma {:induction false} ClosesAfter(s: string, q: char) returns (n: nat)
    requires IsQuote(q) && !FreeOf(s, q)
    ensures 0 < n <= |s| && Balanced(s[..n], Some(q), true)
    decreases |s|
  {
    if s[0] == q {
      n := 1;
      assert s[..1][1..] == [];
    } else {
      var step: nat := if s[0] == '\\' then 2 else 1;
      var m := ClosesAfter(s[step..], q);
      n := step + m;
      assert s[..n][step..] == s[step..][..m];
    }
  }

  // ---- writing words so that they are read back

  /** The text stands for exactly this word. */
  predicate Spells(text: string, word: string) {
    Balanced(text, None, true) && Tokens(text, None) == Lits(word)
  }

  /** A backslash before every special character. */
  function Escape(word: string): (text: string)
    ensures Escapes(text, word)
  {
    if word == "" then ""
    else if IsSpecial(word[0]) then ['\\', word[0]] + Escape(word[1..])
    else [word[0]] + Escape(word[1..])
  }

  /** Any mixture of escaped and plain characters, with every special one escaped. */
  predicate Escapes(text: string, word: string) {
    if word == "" then text == ""
    else if text != "" && text[0] == '\\' then |text| > 1 && text[1] == word[0] && Escapes(text[2..], word[1..])
    else
      && text != "" && text[0] == word[0]
      && word[0] != '\\' && word[0] != '\'' && word[0] != '"' && word[0] != ' ' && word[0] != '\t'
      && Escapes(text[1..], word[1..])
  }

  lemma {:induction false} EscapedSpells(text: string, word: string)
    requires Escapes(text, word)
    ensures Spells(text, word)
    decreases |word|
  {
    if word != "" {
      EscapedSpells(if text[0] == '\\' then text[2..] else text[1..], word[1..]);
      assert Lits(word) == [Lit(word[0])] + Lits(word[1..]);
    }
  }

  /** Inside quotes only that quote and backslashes have to be escaped, and everything may be. */
  predicate InQuotes(text: string, word: string, q: char) {
    if word == "" then text == ""
    else if text != "" && text[0] == '\\' then |text| > 1 && text[1] == word[0] && InQuotes(text[2..], word[1..], q)
    else text != "" && text[0] == word[0] && word[0] != q && InQuotes(text[1..], word[1..], q)
  }

  /** A quoted part, single or double, spells its word. */
  lemma QuotedSpells(q: char, text: string, word: string)
    requires (q == '\'' || q == '"') && InQuotes(text, word, q)
    ensures Spells([q] + text + [q], word)
  {
    InsideQuotes(q, text, word);
    assert ([q] + text + [q])[1..] == text + [q];
  }

  lemma {:induction false} InsideQuotes(q: char, text: string, word: string)
    requires (q == '\'' || q == '"') && InQuotes(text, word, q)
    ensures Balanced(text + [q], Some(q), true) && Tokens(text + [q], Some(q)) == Lits(word)
    decreases |word|
  {
    if word == "" {
      assert text + [q] == [q] && [q][1..] == [];
    } else {
      var n := if text[0] == '\\' then 2 else 1;
      InsideQuotes(q, text[n..], word[1..]);
      assert (text + [q])[n..] == text[n..] + [q];
      assert Lits(word) == [Lit(word[0])] + Lits(word[1..]);
    }
  }

  /** A word without that quote and without backslashes may stand in quotes as it is. */
  lemma {:induction false} PlainInQuotes(q: char, word: string)
    requires q !in word && '\\' !in word
    ensures InQuotes(word, word, q)
  {
    if word != "" {
      assert word[0] in word && forall c :: c in word[1..] ==> c in word;
      PlainInQuotes(q, word[1..]);
    }
  }

  /** A backslash at the end of a line, outside quotes, stands for itself. */
  lemma TrailingBackslash(line: string)
    requires Balanced(line, None, true)
    ensures Balanced(line + "\\", None, false)
    ensures Words("", Tokens(line + "\\", None)) == Words("", Tokens(line, None) + [Lit('\\')])
  {
    AfterClosed(line, None, "\\");
  }

  /** Spellings side by side spell the words side by side. */
  lemma SpellsTogether(s: string, v: string, t: string, w: string)
    requires Spells(s, v) && Spells(t, w)
    ensures Spells(s + t, v + w)
  {
    AfterClosed(s, None, t);
    assert Lits(v + w) == Lits(v) + Lits(w);
  }

  predicate AllBlank(s: string) {
    forall c | c in s :: c == ' ' || c == '\t'
  }

  /** Texts followed by gaps. */
  function Line(texts: seq<string>, gaps: seq<string>): string
    requires |texts| == |gaps|
  {
    if texts == [] then "" else texts[0] + gaps[0] + Line(texts[1..], gaps[1..])
  }

  /** Every way to spell non-empty words, set apart by blanks, is read back as these words. */
  lemma {:induction false} SplitUndoesSpelling(words: seq<string>, texts: seq<string>, gaps: seq<string>)
    requires |words| == |texts| == |gaps|
    requires forall i :: 0 <= i < |words| ==> words[i] != "" && Spells(texts[i], words[i]) && AllBlank(gaps[i])
    requires forall i :: 0 <= i < |words| - 1 ==> gaps[i] != ""
    ensures Balanced(Line(texts, gaps), None, false)
    ensures Words("", Tokens(Line(texts, gaps), None)) == words
  {
    if words != [] {
      var rest := Line(texts[1..], gaps[1..]);
      assert forall i :: 0 <= i < |words| - 1 ==>
        words[1..][i] == words[i + 1] && texts[1..][i] == texts[i + 1] && gaps[1..][i] == gaps[i + 1];
      SplitUndoesSpelling(words[1..], texts[1..], gaps[1..]);
      assert texts[0] + gaps[0] + rest == texts[0] + (gaps[0] + rest);
      AfterClosed(texts[0], None, gaps[0] + rest);
      BlanksClosed(gaps[0]);
      AfterClosed(gaps[0], None, rest);
      WordRead("", words[0], Tokens(gaps[0] + rest, None));
      assert "" + words[0] == words[0];
      if gaps[0] == "" {
        assert gaps[0] + rest == rest;
        assert |words| == 1 && texts[1..] == [] && rest == "" && words == [words[0]];
      } else {
        BlanksRead(words[0], gaps[0], Tokens(rest, None));
        assert words == [words[0]] + words[1..];
      }
    }
  }

  /** Blanks in front change nothing. */
  lemma LeadingBlanks(lead: string, line: string)
    requires AllBlank(lead)
    ensures Balanced(lead + line, None, false) <==> Balanced(line, None, false)
    ensures Words("", Tokens(lead + line, None)) == Words("", Tokens(line, None))
  {
    BlanksClosed(lead);
    AfterClosed(lead, None, line);
    if lead == "" {
      assert lead + line == line;
    } else {
      BlanksRead("", lead, Tokens(line, None));
    }
  }

  lemma {:induction false} BlanksClosed(s: string)
    requires AllBlank(s)
    ensures Balanced(s, None, true) && Tokens(s, None) == seq(|s|, _ => Blank)
  {
    if s != [] {
      assert s[0] in s;
      assert forall c :: c in s[1..] ==> c in s;
      BlanksClosed(s[1..]);
    }
  }

  lemma {:induction false} BlanksRead(word: string, s: string, tokens: seq<Token>)
    requires s != "" && AllBlank(s) && Tokens(s, None) == seq(|s|, _ => Blank)
    ensures Words(word, Tokens(s, None) + tokens) == Pending(word) + Words("", tokens)
    decreases |s|
  {
    var blanks := Tokens(s, None);
    assert (blanks + tokens)[1..] == blanks[1..] + tokens;
    if |s| == 1 {
      assert blanks[1..] + tokens == tokens;
    } else {
      assert forall c :: c in s[1..] ==> c in s;
      BlanksClosed(s[1..]);
      assert blanks[1..] == Tokens(s[1..], None);
      BlanksRead("", s[1..], tokens);
    }
  }

  /** In particular escaped words set apart by single spaces. */
  lemma SplitUndoesEscape(words: seq<string>)
    requires forall w :: w in words ==> w != ""
    ensures var texts := seq(|words|, i requires 0 <= i < |words| => Escape(words[i]));
            var line := Line(texts, seq(|words|, _ => " "));
            Balanced(line, None, false) && Words("", Tokens(line, None)) == words
  {
    var texts := seq(|words|, i requires 0 <= i < |words| => Escape(words[i]));
    forall i | 0 <= i < |words|
      ensures words[i] != "" && Spells(texts[i], words[i])
    {
      assert words[i] in words;
      EscapedSpells(texts[i], words[i]);
    }
    SplitUndoesSpelling(words, texts, seq(|words|, _ => " "));
  }
}
