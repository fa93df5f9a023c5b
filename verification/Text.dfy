/**
 * The parts of Go's `strings` package the modelled code calls.
 *
 * Characters stand for runes. `ToLower` maps the ASCII letters and the two other
 * runes whose lower case is an ASCII letter; every comparison made with the result
 * is against ASCII text, so the remaining runes never matter.
 */
module Text {
  import opened Options

  /** unicode.IsSpace. */
  predicate IsSpace(c: char) {
    c == ' ' || '\t' <= c <= '\r' || c == '\U{85}' || c == '\U{A0}' || c == '\U{1680}'
    || '\U{2000}' <= c <= '\U{200A}' || c == '\U{2028}' || c == '\U{2029}'
    || c == '\U{202F}' || c == '\U{205F}' || c == '\U{3000}'
  }

  predicate IsDigit(c: char) { '0' <= c <= '9' }

  function DigitValue(c: char): nat
    requires IsDigit(c)
  {
    c as int - '0' as int
  }

  function DigitChar(d: nat): (c: char)
    requires d < 10
    ensures IsDigit(c) && DigitValue(c) == d
  {
    ('0' as int + d) as char
  }

  function LowerChar(c: char): char {
    if 'A' <= c <= 'Z' then (c as int + 32) as char
    else if c == '\U{130}' then 'i'
    else if c == '\U{212A}' then 'k'
    else c
  }

  function ToLower(s: string): (r: string)
    ensures |r| == |s|
  {
    if s == [] then [] else [LowerChar(s[0])] + ToLower(s[1..])
  }

  /** len(s): the bytes of the UTF-8 text. */
  function ByteLength(s: string): nat {
    if s == [] then 0 else ByteLength(s[1..]) + (if s[0] < '\U{80}' then 1 else if s[0] < '\U{800}' then 2 else if s[0] < '\U{10000}' then 3 else 4)
  }

  function TrimLeft(s: string): string {
    if s != [] && IsSpace(s[0]) then TrimLeft(s[1..]) else s
  }

  function TrimRight(s: string): string {
    if s != [] && IsSpace(s[|s| - 1]) then TrimRight(s[..|s| - 1]) else s
  }

  function TrimSpace(s: string): string { TrimRight(TrimLeft(s)) }

  /** strings.Split with a one-character separator: always at least one part. */
  function Split(s: string, sep: char): (parts: seq<string>)
    ensures |parts| >= 1
  {
    if s == [] then [[]]
    else
      var rest := Split(s[1..], sep);
      if s[0] == sep then [[]] + rest else [[s[0]] + rest[0]] + rest[1..]
  }

  /** strings.Cut with a one-character separator. */
  function Cut(s: string, sep: char): (string, string, bool) {
    if s == [] then ([], [], false)
    else if s[0] == sep then ([], s[1..], true)
    else var (before, after, found) := Cut(s[1..], sep); ([s[0]] + before, after, found)
  }

  /** The leading run of non-space characters. */
  function Word(s: string): (w: string)
    ensures |w| <= |s|
    ensures s != [] && !IsSpace(s[0]) ==> w != []
  {
    if s == [] || IsSpace(s[0]) then [] else [s[0]] + Word(s[1..])
  }

  /** strings.Fields. */
  function Fields(s: string): seq<string>
    decreases |s|
  {
    if s == [] then []
    else if IsSpace(s[0]) then Fields(s[1..])
    else [Word(s)] + Fields(s[|Word(s)|..])
  }

  /** strings.Join with a space. */
  function JoinWithSpace(parts: seq<string>): string {
    if parts == [] then []
    else if |parts| == 1 then parts[0]
    else parts[0] + " " + JoinWithSpace(parts[1..])
  }

  predicate HasPrefix(s: string, prefix: string) {
    |prefix| <= |s| && s[..|prefix|] == prefix
  }

  /** strings.Contains. */
  predicate Contains(s: string, sub: string) {
    HasPrefix(s, sub) || (s != [] && Contains(s[1..], sub))
  }

  /** strings.ContainsAny. */
  predicate ContainsAny(s: string, chars: string) {
    exists i :: 0 <= i < |s| && s[i] in chars
  }

  // ---- Facts about trimming ----------------------------------------------------

  predicate Trimmed(s: string) {
    s == [] || (!IsSpace(s[0]) && !IsSpace(s[|s| - 1]))
  }

  lemma {:induction false} TrimLeftShape(s: string)
    ensures TrimLeft(s) == [] || !IsSpace(TrimLeft(s)[0])
    ensures forall c :: c in TrimLeft(s) ==> c in s
  {
    if s != [] && IsSpace(s[0]) { TrimLeftShape(s[1..]); }
  }

  lemma {:induction false} TrimRightShape(s: string)
    ensures TrimRight(s) == [] || !IsSpace(TrimRight(s)[|TrimRight(s)| - 1])
    ensures TrimRight(s) <= s
  {
    if s != [] && IsSpace(s[|s| - 1]) { TrimRightShape(s[..|s| - 1]); }
  }

  /** Trimming leaves no space at either end and invents no character. */
  lemma TrimSpaceShape(s: string)
    ensures Trimmed(TrimSpace(s))
    ensures forall c :: c in TrimSpace(s) ==> c in s
  {
    TrimLeftShape(s);
    TrimRightShape(TrimLeft(s));
  }

  /** Trimming leaves nothing exactly of a blank text. */
  lemma TrimsToNothing(s: string)
    ensures TrimSpace(s) == "" <==> forall c :: c in s ==> IsSpace(c)
  {
    TrimLeftOfBlank(s);
    TrimRightOfBlank(TrimLeft(s));
    TrimLeftShape(s);
    if TrimLeft(s) != [] { assert TrimLeft(s)[0] in s && TrimLeft(s)[0] in TrimLeft(s); }
  }

  lemma {:induction false} TrimLeftOfBlank(s: string)
    ensures TrimLeft(s) == [] <==> forall c :: c in s ==> IsSpace(c)
  {
    if s != [] {
      TrimLeftOfBlank(s[1..]);
      assert s == [s[0]] + s[1..];
    }
  }

  lemma {:induction false} TrimRightOfBlank(s: string)
    ensures TrimRight(s) == [] <==> forall c :: c in s ==> IsSpace(c)
  {
    if s != [] {
      TrimRightOfBlank(s[..|s| - 1]);
      assert s == s[..|s| - 1] + [s[|s| - 1]];
    }
  }

  predicate Blank(s: string) { forall c :: c in s ==> IsSpace(c) }

  /** What is left when the blanks around a text are taken away. */
  ghost predicate IsTrimOf(t: string, s: string) {
    Trimmed(t) && exists a, b :: Blank(a) && Blank(b) && s == a + t + b
  }

  lemma TrimSpaceMeans(s: string)
    ensures IsTrimOf(TrimSpace(s), s)
    ensures forall t :: IsTrimOf(t, s) ==> t == TrimSpace(s)
  {
    TrimSpaceShape(s);
    TrimLeftCuts(s);
    TrimRightCuts(TrimLeft(s));
    var a, b :| Blank(a) && s == a + TrimLeft(s) && Blank(b) && TrimLeft(s) == TrimSpace(s) + b;
    assert s == a + TrimSpace(s) + b;
    forall t | IsTrimOf(t, s) ensures t == TrimSpace(s) {
      var c, d :| Blank(c) && Blank(d) && s == c + t + d;
      TrimmedOf(c, t, d);
    }
  }

  lemma {:induction false} TrimLeftCuts(s: string)
    ensures exists a :: Blank(a) && s == a + TrimLeft(s)
  {
    if s != [] && IsSpace(s[0]) {
      TrimLeftCuts(s[1..]);
      var a :| Blank(a) && s[1..] == a + TrimLeft(s[1..]);
      assert Blank([s[0]] + a) && s == [s[0]] + a + TrimLeft(s);
    } else {
      assert Blank([]) && s == [] + TrimLeft(s);
    }
  }

  lemma {:induction false} TrimRightCuts(s: string)
    ensures exists b :: Blank(b) && s == TrimRight(s) + b
  {
    if s != [] && IsSpace(s[|s| - 1]) {
      var n := |s| - 1;
      TrimRightCuts(s[..n]);
      var b :| Blank(b) && s[..n] == TrimRight(s[..n]) + b;
      assert Blank(b + [s[n]]) && s == TrimRight(s) + (b + [s[n]]);
    } else {
      assert Blank([]) && s == TrimRight(s) + [];
    }
  }

  lemma TrimmedOf(a: string, t: string, b: string)
    requires Blank(a) && Trimmed(t) && Blank(b)
    ensures TrimSpace(a + t + b) == t
  {
    if t == [] {
      assert Blank(a + t + b);
      TrimsToNothing(a + t + b);
    } else {
      LeftBlanks(a, t + b);
      assert a + (t + b) == a + t + b;
      RightBlanks(t, b);
    }
  }

  lemma {:induction false} LeftBlanks(a: string, t: string)
    requires Blank(a) && t != [] && !IsSpace(t[0])
    ensures TrimLeft(a + t) == t
  {
    if a == [] {
      assert a + t == t;
    } else {
      assert a[0] in a && (a + t)[1..] == a[1..] + t;
      LeftBlanks(a[1..], t);
    }
  }

  lemma {:induction false} RightBlanks(t: string, b: string)
    requires Blank(b) && t != [] && !IsSpace(t[|t| - 1])
    ensures TrimRight(t + b) == t
  {
    if b == [] {
      assert t + b == t;
    } else {
      var n := |b| - 1;
      assert b[n] in b && (t + b)[..|t + b| - 1] == t + b[..n];
      RightBlanks(t, b[..n]);
    }
  }

  lemma TrimSpaceOfTrimmed(s: string)
    requires Trimmed(s)
    ensures TrimSpace(s) == s
  {
  }

  lemma {:induction false} SplitKeepsCharacters(s: string, sep: char, i: nat)
    requires i < |Split(s, sep)|
    ensures forall c :: c in Split(s, sep)[i] ==> c in s && c != sep
  {
    if s != [] {
      var rest := Split(s[1..], sep);
      if s[0] == sep {
        if i > 0 { SplitKeepsCharacters(s[1..], sep, i - 1); }
      } else {
        SplitKeepsCharacters(s[1..], sep, i);
      }
    }
  }

  lemma {:induction false} SplitWithoutSeparator(s: string, sep: char)
    requires sep !in s
    ensures Split(s, sep) == [s]
  {
    if s != [] {
      SplitWithoutSeparator(s[1..], sep);
      assert s == [s[0]] + s[1..];
    }
  }

  /** Splitting off the first part. */
  lemma {:induction false} SplitAtFirst(a: string, sep: char, rest: string)
    requires sep !in a
    ensures Split(a + [sep] + rest, sep) == [a] + Split(rest, sep)
  {
    var s := a + [sep] + rest;
    if a == [] {
      assert s[1..] == rest;
    } else {
      SplitAtFirst(a[1..], sep, rest);
      assert s[1..] == a[1..] + [sep] + rest;
      assert s[0] == a[0];
      assert [a[0]] + a[1..] == a;
    }
  }
}
