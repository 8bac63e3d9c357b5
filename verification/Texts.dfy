/** Splitting and joining text, and decimal numerals. */
module Texts {

  function Split(s: string, c: char): (r: seq<string>)
    ensures r != []
  {
    if s == [] then [""]
    else
      var rest := Split(s[1..], c);
      if s[0] == c then [""] + rest else [[s[0]] + rest[0]] + rest[1..]
  }

  function Join(parts: seq<string>, c: char): string
    requires parts != []
  {
    if |parts| == 1 then parts[0] else parts[0] + [c] + Join(parts[1..], c)
  }

  lemma {:induction false} JoinSplit(s: string, c: char)
    ensures Join(Split(s, c), c) == s
    ensures forall p :: p in Split(s, c) ==> c !in p
  {
    if s != [] {
      JoinSplit(s[1..], c);
      var rest := Split(s[1..], c);
      assert s == [s[0]] + s[1..];
      if s[0] == c {
        assert ([""] + rest)[1..] == rest;
      } else {
        assert ([[s[0]] + rest[0]] + rest[1..])[1..] == rest[1..];
        assert rest[0] in rest;
      }
    }
  }

  lemma {:induction false} SplitPart(p: string, c: char, rest: string)
    requires c !in p
    ensures Split(p + [c] + rest, c) == [p] + Split(rest, c)
    ensures Split(p, c) == [p]
  {
    if p == [] {
      assert p + [c] + rest == [c] + rest;
      assert ([c] + rest)[1..] == rest;
    } else {
      SplitPart(p[1..], c, rest);
      assert (p + [c] + rest)[1..] == p[1..] + [c] + rest;
      assert p == [p[0]] + p[1..];
    }
  }

  lemma {:induction false} SplitJoin(parts: seq<string>, c: char)
    requires parts != [] && forall p :: p in parts ==> c !in p
    ensures Split(Join(parts, c), c) == parts
  {
    assert parts[0] in parts;
    if |parts| == 1 {
      SplitPart(parts[0], c, "");
    } else {
      SplitJoin(parts[1..], c);
      SplitPart(parts[0], c, Join(parts[1..], c));
    }
  }

  /** The text before the first occurrence of c, all of it when there is none. */
  function Before(s: string, c: char): (r: string)
    ensures |r| <= |s| && r == s[..|r|] && c !in r
    ensures |r| < |s| ==> s[|r|] == c
    ensures |r| == |s| <==> c !in s
  {
    if s == [] || s[0] == c then "" else [s[0]] + Before(s[1..], c)
  }

  /** The position after the last occurrence of c, zero when there is none. */
  function AfterLast(s: string, c: char): (i: nat)
    ensures i <= |s| && c !in s[i..]
    ensures i > 0 ==> s[i - 1] == c
  {
    if s == [] then 0
    else if s[|s| - 1] == c then |s|
    else
      assert s == s[..|s| - 1] + [s[|s| - 1]];
      AfterLast(s[..|s| - 1], c)
  }

  /** The postconditions of Before leave no choice. */
  lemma BeforeIs(s: string, c: char, r: string)
    requires |r| <= |s| && r == s[..|r|] && c !in r && (|r| < |s| ==> s[|r|] == c)
    ensures Before(s, c) == r
  {
    var b := Before(s, c);
    MemberAt(r, |b|);
    MemberAt(b, |r|);
  }

  lemma MemberAt(s: string, i: int)
    ensures 0 <= i < |s| ==> s[i] in s
  {
  }

  lemma AfterLastIs(s: string, c: char, i: nat)
    requires i <= |s| && c !in s[i..] && (i > 0 ==> s[i - 1] == c)
    ensures AfterLast(s, c) == i
  {
    var j := AfterLast(s, c);
    MemberAt(s[i..], j - 1 - i);
    MemberAt(s[j..], i - 1 - j);
  }

  // ---- words

  /** A character that belongs to a word, or one that sets words apart. */
  datatype Token = Lit(c: char) | Blank

  function Lits(word: string): seq<Token> {
    seq(|word|, i requires 0 <= i < |word| => Lit(word[i]))
  }

  function Pending(word: string): seq<string> {
    if word == "" then [] else [word]
  }

  /** The runs of literal characters between blanks; word is what came before. */
  function Words(word: string, tokens: seq<Token>): seq<string>
    decreases |tokens|
  {
    if tokens == [] then Pending(word)
    else match tokens[0]
      case Lit(c) => Words(word + [c], tokens[1..])
      case Blank => Pending(word) + Words("", tokens[1..])
  }

  lemma {:induction false} NoEmptyWord(word: string, tokens: seq<Token>)
    ensures forall w :: w in Words(word, tokens) ==> w != ""
    decreases |tokens|
  {
    if tokens != [] {
      match tokens[0]
      case Lit(c) => NoEmptyWord(word + [c], tokens[1..]);
      case Blank => NoEmptyWord("", tokens[1..]);
    }
  }

  lemma {:induction false} WordRead(before: string, word: string, tokens: seq<Token>)
    ensures Words(before, Lits(word) + tokens) == Words(before + word, tokens)
    decreases |word|
  {
    if word == "" {
      assert Lits(word) + tokens == tokens && before + word == before;
    } else {
      assert (Lits(word) + tokens)[1..] == Lits(word[1..]) + tokens;
      WordRead(before + [word[0]], word[1..], tokens);
      assert before + [word[0]] + word[1..] == before + word;
    }
  }

  // ---- decimal numerals

  predicate IsDigit(c: char) { '0' <= c <= '9' }

  predicate AllDigits(s: string) {
    forall c | c in s :: IsDigit(c)
  }

  /** A numeral without superfluous zeros. */
  predicate IsNumeral(s: string) {
    s != "" && AllDigits(s) && (s[0] == '0' ==> |s| == 1)
  }

  function DigitValue(c: char): (d: nat)
    requires IsDigit(c)
    ensures d < 10
  {
    c as int - '0' as int
  }

  function DigitChar(d: nat): (c: char)
    requires d < 10
    ensures IsDigit(c) && DigitValue(c) == d
  {
    ('0' as int + d) as char
  }

  function Value(s: string): nat
    requires AllDigits(s)
  {
    if s == [] then 0
    else
      assert s[|s| - 1] in s;
      10 * Value(s[..|s| - 1]) + DigitValue(s[|s| - 1])
  }

  function Print(n: nat): (s: string)
    ensures s != "" && AllDigits(s)
  {
    if n < 10 then [DigitChar(n)] else Print(n / 10) + [DigitChar(n % 10)]
  }

  lemma {:induction false} ValuePrint(n: nat)
    ensures Value(Print(n)) == n && IsNumeral(Print(n))
    ensures n > 0 ==> Print(n)[0] != '0'
  {
    if n < 10 {
      assert Value([]) == 0;
      assert Print(n)[..0] == [];
    } else {
      ValuePrint(n / 10);
      assert Print(n)[..|Print(n)| - 1] == Print(n / 10);
    }
  }

  lemma {:induction false} PrintValue(s: string)
    requires IsNumeral(s)
    ensures Print(Value(s)) == s
    ensures s[0] != '0' ==> Value(s) > 0
  {
    var init := s[..|s| - 1];
    if |s| == 1 {
      assert init == [] && Value(init) == 0 && s == [s[0]];
    } else {
      assert init[0] == s[0] && s[|s| - 1] in s;
      assert s[0] != '0';
      PrintValue(init);
      assert s == init + [s[|s| - 1]];
    }
  }
}
