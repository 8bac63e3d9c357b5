/** Deriving a cluster ID from a cluster name, and the rules for cluster IDs. */
module ClusterIds {
  import opened Results
  import opened Texts

  const LIMIT := 32

  predicate IsAlnum(c: char) { 'a' <= c <= 'z' || '0' <= c <= '9' }

  /** Lower case, as far as it can produce a letter from a to z: besides the ASCII capitals, the Kelvin sign
      and the capital I with dot. Every other character keeps out of that range and is left alone here. */
  function Lower(c: char): char {
    if 'A' <= c <= 'Z' then c - 'A' + 'a'
    else if c == '\U{212A}' then 'k'
    else if c == '\U{0130}' then 'i'
    else c
  }

  // ---- validation

  datatype IDError = Required | TooLong | ConsecutiveHyphens | BadForm | Reserved

  predicate HasDoubleHyphen(s: string) {
    exists i | 0 <= i < |s| - 1 :: s[i] == '-' && s[i + 1] == '-'
  }

  /** The pattern [a-z0-9]([a-z0-9-]*[a-z0-9])? */
  predicate WellFormed(s: string) {
    s != "" && IsAlnum(s[0]) && IsAlnum(s[|s| - 1]) && forall c | c in s :: IsAlnum(c) || c == '-'
  }

  predicate IsReserved(s: string) {
    s == "local" || s == "k8s" || s == "oidc"
  }

  function ValidateClusterID(id: string): Option<IDError> {
    if id == "" then Some(Required)
    else if |id| > LIMIT then Some(TooLong)
    else if HasDoubleHyphen(id) then Some(ConsecutiveHyphens)
    else if !WellFormed(id) then Some(BadForm)
    else if IsReserved(id) then Some(Reserved)
    else None
  }

  // ---- derivation

  /** The name as words of letters and digits. */
  function Marks(name: string): (tokens: seq<Token>)
    ensures |tokens| == |name|
  {
    seq(|name|, i requires 0 <= i < |name| => if IsAlnum(Lower(name[i])) then Lit(Lower(name[i])) else Blank)
  }

  function JoinAll(words: seq<string>): string {
    if words == [] then "" else Join(words, '-')
  }

  /** The words of the name with one hyphen between them. */
  function Slug(name: string): string {
    JoinAll(Words("", Marks(name)))
  }

  function TrimHyphens(s: string): string {
    if s != "" && s[|s| - 1] == '-' then TrimHyphens(s[..|s| - 1]) else s
  }

  function ClusterID(name: string): string {
    var slug := Slug(name);
    if |slug| > LIMIT then TrimHyphens(slug[..LIMIT]) else slug
  }

  method ClusterIDFromName(name: string) returns (id: string)
    ensures id == ClusterID(name)
  {
    var b, hyphen := "", false;
    assert Marks(name)[0..] == Marks(name);
    for i := 0 to |name|
      invariant Glue("", false, Marks(name)) == Glue(b, hyphen, Marks(name)[i..])
    {
      assert Marks(name)[i..][1..] == Marks(name)[i + 1..];
      var c := Lower(name[i]);
      ghost var was := b;
      if IsAlnum(c) {
        if hyphen && |b| > 0 {
          b := b + "-";
        }
        b := b + [c];
        assert b == was + (if hyphen && was != "" then "-" else "") + [c];
        hyphen := false;
      } else {
        hyphen := true;
      }
    }
    assert Marks(name)[|name|..] == [];
    GlueIsJoin("", false, Marks(name));
    assert b == "" + "" + Slug(name) == Slug(name);
    id := b;
    if |id| > LIMIT {
      id := TrimHyphens(id[..LIMIT]);
    }
  }

  /** What the loop still makes of its builder, its flag and the rest of the name. */
  ghost function Glue(b: string, hyphen: bool, tokens: seq<Token>): string
    decreases |tokens|
  {
    if tokens == [] then b
    else match tokens[0]
      case Lit(c) => Glue(b + (if hyphen && b != "" then "-" else "") + [c], false, tokens[1..])
      case Blank => Glue(b, true, tokens[1..])
  }

  /** After a hyphen mark, or before anything is written, the words to come are joined on. */
  lemma {:induction false} GlueIsJoin(b: string, hyphen: bool, tokens: seq<Token>)
    requires hyphen || b == ""
    ensures var words := Words("", tokens);
            Glue(b, hyphen, tokens) == b + (if b != "" && words != [] then "-" else "") + JoinAll(words)
    decreases |tokens|
  {
    if tokens != [] {
      match tokens[0]
      case Lit(c) =>
        var before := b + if b != "" then "-" else "";
        assert "" + [c] == [c];
        GlueInWord(before, [c], tokens[1..]);
        WordsNotEmpty([c], tokens[1..]);
      case Blank =>
        GlueIsJoin(b, true, tokens[1..]);
        assert Pending("") + Words("", tokens[1..]) == Words("", tokens[1..]);
    }
  }

  /** Inside a word the rest of it comes first. */
  lemma {:induction false} GlueInWord(before: string, word: string, tokens: seq<Token>)
    requires word != ""
    ensures Glue(before + word, false, tokens) == before + JoinAll(Words(word, tokens))
    decreases |tokens|
  {
    if tokens != [] {
      match tokens[0]
      case Lit(c) =>
        assert before + word + "" + [c] == before + (word + [c]);
        GlueInWord(before, word + [c], tokens[1..]);
      case Blank =>
        var words := Words("", tokens[1..]);
        GlueIsJoin(before + word, true, tokens[1..]);
        assert ([word] + words)[1..] == words;
        if words == [] {
          assert before + word + "" + "" == before + word;
        } else {
          assert before + word + "-" + JoinAll(words) == before + (word + ['-'] + JoinAll(words));
        }
    }
  }

  lemma {:induction false} WordsNotEmpty(word: string, tokens: seq<Token>)
    ensures word != "" ==> Words(word, tokens) != []
    ensures word == "" ==> (Words(word, tokens) == [] <==> forall t :: t in tokens ==> t == Blank)
    decreases |tokens|
  {
    if tokens != [] {
      assert tokens == [tokens[0]] + tokens[1..] && tokens[0] in tokens;
      match tokens[0]
      case Lit(c) => WordsNotEmpty(word + [c], tokens[1..]);
      case Blank =>
        WordsNotEmpty("", tokens[1..]);
        assert forall t :: t in tokens <==> t == Blank || t in tokens[1..];
        assert word == "" ==> Words(word, tokens) == Words("", tokens[1..]);
    }
  }

  // ---- what the derived IDs are like

  predicate AllAlnum(s: string) {
    forall c | c in s :: IsAlnum(c)
  }

  lemma {:induction false} WordsAlnum(word: string, tokens: seq<Token>)
    requires AllAlnum(word) && forall t :: t in tokens && t.Lit? ==> IsAlnum(t.c)
    ensures forall w :: w in Words(word, tokens) ==> AllAlnum(w)
    decreases |tokens|
  {
    if tokens != [] {
      assert tokens[0] in tokens;
      match tokens[0]
      case Lit(c) => WordsAlnum(word + [c], tokens[1..]);
      case Blank => WordsAlnum("", tokens[1..]);
    }
  }

  lemma {:induction false} JoinedWordsWellFormed(words: seq<string>)
    requires words != [] && forall w :: w in words ==> w != "" && AllAlnum(w)
    ensures WellFormed(Join(words, '-')) && !HasDoubleHyphen(Join(words, '-'))
  {
    var first := words[0];
    assert first in words;
    AlnumWellFormed(first);
    if |words| > 1 {
      assert forall w :: w in words[1..] ==> w in words;
      JoinedWordsWellFormed(words[1..]);
      HyphenBetween(first, Join(words[1..], '-'));
    }
  }

  lemma AlnumWellFormed(s: string)
    requires s != "" && AllAlnum(s)
    ensures WellFormed(s) && !HasDoubleHyphen(s)
  {
    assert s[0] in s && s[|s| - 1] in s;
    forall i | 0 <= i < |s| - 1
      ensures s[i] != '-'
    {
      assert s[i] in s;
    }
  }

  lemma HyphenBetween(s: string, t: string)
    requires WellFormed(s) && !HasDoubleHyphen(s) && WellFormed(t) && !HasDoubleHyphen(t)
    ensures WellFormed(s + ['-'] + t) && !HasDoubleHyphen(s + ['-'] + t)
  {
    var r := s + ['-'] + t;
    assert r[|r| - 1] == t[|t| - 1];
    forall i | 0 <= i < |r| - 1
      ensures !(r[i] == '-' && r[i + 1] == '-')
    {
      if i < |s| - 1 {
        assert r[i] == s[i] && r[i + 1] == s[i + 1];
      } else if i > |s| {
        assert r[i] == t[i - |s| - 1] && r[i + 1] == t[i - |s|];
      }
    }
  }

  lemma CutWellFormed(s: string)
    requires WellFormed(s) && !HasDoubleHyphen(s) && |s| > LIMIT
    ensures WellFormed(TrimHyphens(s[..LIMIT])) && !HasDoubleHyphen(TrimHyphens(s[..LIMIT]))
    ensures |TrimHyphens(s[..LIMIT])| <= LIMIT
  {
    var cut := s[..LIMIT];
    assert cut[LIMIT - 1] in s && cut[LIMIT - 2] in s;
    assert !(cut[LIMIT - 2] == '-' && cut[LIMIT - 1] == '-');
    var trimmed := TrimHyphens(cut);
    assert trimmed == cut || trimmed == cut[..LIMIT - 1];
    assert forall i :: 0 <= i < |trimmed| ==> trimmed[i] == s[i] && s[i] in s;
  }

  /** A derived ID is empty, exactly when the name has no letter or digit, or a valid ID unless it happens
      to be reserved. */
  lemma DerivedIsValid(name: string)
    ensures ClusterID(name) == "" <==> forall c :: c in name ==> !IsAlnum(Lower(c))
    ensures ClusterID(name) != "" ==> WellFormed(ClusterID(name)) && !HasDoubleHyphen(ClusterID(name))
    ensures |ClusterID(name)| <= 32
    ensures ValidateClusterID(ClusterID(name)) ==
            if forall c :: c in name ==> !IsAlnum(Lower(c)) then Some(Required)
            else if ClusterID(name) in {"local", "k8s", "oidc"} then Some(Reserved) else None
  {
    var words := Words("", Marks(name));
    NoEmptyWord("", Marks(name));
    WordsAlnum("", Marks(name));
    WordsNotEmpty("", Marks(name));
    BlankNames(name);
    if words != [] {
      JoinedWordsWellFormed(words);
      if |Slug(name)| > LIMIT {
        CutWellFormed(Slug(name));
      }
    }
  }

  lemma BlankNames(name: string)
    ensures (forall t :: t in Marks(name) ==> t == Blank) <==> forall c :: c in name ==> !IsAlnum(Lower(c))
  {
    if forall t :: t in Marks(name) ==> t == Blank {
      forall c | c in name
        ensures !IsAlnum(Lower(c))
      {
        var i :| 0 <= i < |name| && name[i] == c;
        assert Marks(name)[i] in Marks(name);
      }
    }
  }

  /** An ID that meets the rules, reserved or not, is its own derivation. */
  lemma DerivedIsIdentity(id: string)
    requires WellFormed(id) && !HasDoubleHyphen(id) && |id| <= 32
    ensures ClusterID(id) == id
  {
    GlueIsJoin("", false, Marks(id));
    GlueKeeps("", id);
    assert "" + id == id && "" + "" + Slug(id) == Slug(id);
  }

  const SMALL := "abcdefghijklmnopqrstuvwxyz"
  const CAPITALS := "ABCDEFGHIJKLMNOPQRSTUVWXYZ"

  lemma SmallLetters(c: char)
    ensures c in SMALL <==> 'a' <= c <= 'z'
  {
    if 'a' <= c <= 'z' {
      assert SMALL[c as int - 'a' as int] == c;
    }
  }

  lemma Digits(c: char)
    ensures c in "0123456789" <==> '0' <= c <= '9'
  {
    if '0' <= c <= '9' {
      assert "0123456789"[c as int - '0' as int] == c;
    }
  }

  /** What the words of a name are made of: the letters from a to z and the digits. */
  lemma LettersAndDigits(c: char)
    ensures IsAlnum(c) <==> c in SMALL || c in "0123456789"
  {
    SmallLetters(c);
    Digits(c);
  }

  /** The same character, or a capital and its small letter. */
  ghost predicate SameLetter(a: char, b: char) {
    a == b || exists k :: 0 <= k < 26 && a == CAPITALS[k] && b == SMALL[k]
  }

  lemma Lowered(k: nat)
    requires k < 26
    ensures Lower(CAPITALS[k]) == SMALL[k] == Lower(SMALL[k])
  {
    assert CAPITALS[k] == 'A' + k as char && SMALL[k] == 'a' + k as char;
  }

  /** Capitals count as their small letters. */
  lemma CaseDoesNotMatter(a: string, b: string)
    requires |a| == |b| && forall i :: 0 <= i < |a| ==> SameLetter(a[i], b[i])
    ensures ClusterID(a) == ClusterID(b)
  {
    forall i | 0 <= i < |a|
      ensures Lower(a[i]) == Lower(b[i])
    {
      assert SameLetter(a[i], b[i]);
      if a[i] != b[i] {
        var k :| 0 <= k < 26 && a[i] == CAPITALS[k] && b[i] == SMALL[k];
        Lowered(k);
      }
    }
    assert Marks(a) == Marks(b);
  }

  /** A longer slug is cut to 32 characters, and to 31 when the 32nd is a hyphen. */
  lemma CutAfter32(name: string)
    ensures ClusterID(name) ==
            var slug := Slug(name);
            if |slug| <= 32 then slug else if slug[31] == '-' then slug[..31] else slug[..32]
  {
    var slug := Slug(name);
    if |slug| > 32 {
      NoEmptyWord("", Marks(name));
      WordsAlnum("", Marks(name));
      JoinedWordsWellFormed(Words("", Marks(name)));
      CutOnce(slug);
    }
  }

  lemma CutOnce(slug: string)
    requires |slug| > 32 && !HasDoubleHyphen(slug)
    ensures TrimHyphens(slug[..32]) == if slug[31] == '-' then slug[..31] else slug[..32]
  {
    assert !(slug[30] == '-' && slug[31] == '-');
    assert slug[..32][..31] == slug[..31] && slug[..31][30] == slug[30];
  }

  /** Deriving twice is deriving once. */
  lemma DerivedTwice(name: string)
    ensures ClusterID(ClusterID(name)) == ClusterID(name)
  {
    DerivedIsValid(name);
    if ClusterID(name) == "" {
      DerivedIsValid("");
    } else {
      DerivedIsIdentity(ClusterID(name));
    }
  }

  lemma {:induction false} GlueKeeps(b: string, s: string)
    requires (b == "" ==> s == "" || IsAlnum(s[0])) && !HasDoubleHyphen(s)
    requires s == "" || (IsAlnum(s[|s| - 1]) && forall c :: c in s ==> IsAlnum(c) || c == '-')
    ensures Glue(b, false, Marks(s)) == b + s
    decreases |s|
  {
    if s != "" {
      assert s[0] in s;
      var n := if s[0] == '-' then 2 else 1;
      if s[0] == '-' {
        assert s[1] in s && s[1] != '-';
        assert Marks(s)[1..][1..] == Marks(s[2..]);
        assert b + "-" + [s[1]] == b + s[..2];
      } else {
        assert Marks(s)[1..] == Marks(s[1..]);
        assert b + "" + [s[0]] == b + s[..1];
      }
      NoDoubleLater(s, n);
      GlueKeeps(b + s[..n], s[n..]);
      assert b + s[..n] + s[n..] == b + s;
    }
  }

  lemma NoDoubleLater(s: string, n: nat)
    requires n <= |s| && !HasDoubleHyphen(s)
    ensures !HasDoubleHyphen(s[n..])
  {
    forall i | 0 <= i < |s[n..]| - 1
      ensures !(s[n..][i] == '-' && s[n..][i + 1] == '-')
    {
      assert !(s[n + i] == '-' && s[n + i + 1] == '-');
    }
  }
}
