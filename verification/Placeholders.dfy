/**
 * Positional parameters in query text: writing "$n" into a clause, and reading the numbers
 * back as the database does.
 */
module Placeholders {
  import opened Options
  import opened Text

  /** An argument of a query. */
  datatype Val = IntVal(i: int) | SetVal(ids: set<int>) | StrVal(s: string)

  /** The arguments a clause's text names, if it names ones that exist. */
  function Named(refs: seq<nat>, args: seq<Val>): Option<seq<Val>> {
    if forall i :: 0 <= i < |refs| ==> 1 <= refs[i] <= |args|
    then Some(seq(|refs|, i requires 0 <= i < |refs| => args[refs[i] - 1])) else None
  }

  /** strconv.Itoa of a natural number. */
  function Itoa(n: nat): string {
    if n < 10 then [DigitChar(n)] else Itoa(n / 10) + [DigitChar(n % 10)]
  }

  /** The leading digits of a text. */
  function Digits(s: string): (d: string)
    ensures |d| <= |s|
  {
    if s == [] || !IsDigit(s[0]) then [] else [s[0]] + Digits(s[1..])
  }

  function Number(d: string): nat
    requires forall i :: 0 <= i < |d| ==> IsDigit(d[i])
  {
    if d == [] then 0 else 10 * Number(d[..|d| - 1]) + DigitValue(d[|d| - 1])
  }

  lemma {:induction false} DigitsAreDigits(s: string)
    ensures forall i :: 0 <= i < |Digits(s)| ==> IsDigit(Digits(s)[i])
  {
    if s != [] && IsDigit(s[0]) { DigitsAreDigits(s[1..]); }
  }

  /** Every $n of a text, in order. */
  function Refs(s: string): seq<nat>
    decreases |s|
  {
    if s == [] then []
    else if s[0] != '$' then Refs(s[1..])
    else
      DigitsAreDigits(s[1..]);
      [Number(Digits(s[1..]))] + Refs(s[1 + |Digits(s[1..])|..])
  }

  /** strings.Replace(clause, "?", with, 1). */
  function ReplaceFirst(clause: string, with: string): string {
    if clause == [] then []
    else if clause[0] == '?' then with + clause[1..]
    else [clause[0]] + ReplaceFirst(clause[1..], with)
  }

  lemma {:induction false} ItoaIsItsNumber(n: nat)
    ensures Itoa(n) != [] && forall i :: 0 <= i < |Itoa(n)| ==> IsDigit(Itoa(n)[i])
    ensures Number(Itoa(n)) == n
  {
    if n >= 10 {
      ItoaIsItsNumber(n / 10);
      assert Itoa(n)[..|Itoa(n)| - 1] == Itoa(n / 10);
    } else {
      assert Itoa(n)[..0] == [];
    }
  }

  lemma {:induction false} DigitsOfPrefix(d: string, rest: string)
    requires forall i :: 0 <= i < |d| ==> IsDigit(d[i])
    requires rest == [] || !IsDigit(rest[0])
    ensures Digits(d + rest) == d
  {
    if d == [] {
      assert d + rest == rest;
    } else {
      assert (d + rest)[1..] == d[1..] + rest;
      DigitsOfPrefix(d[1..], rest);
    }
  }

  lemma {:induction false} RefsSkip(a: string, rest: string)
    requires '$' !in a
    ensures Refs(a + rest) == Refs(rest)
  {
    if a == [] {
      assert a + rest == rest;
    } else {
      assert (a + rest)[1..] == a[1..] + rest;
      assert a[0] in a;
      RefsSkip(a[1..], rest);
    }
  }

  lemma RefsOfText(a: string)
    requires '$' !in a
    ensures Refs(a) == []
  {
    RefsSkip(a, []);
    assert a + [] == a;
  }

  lemma RefsAtDollar(d: string, rest: string)
    requires forall i :: 0 <= i < |d| ==> IsDigit(d[i])
    requires rest == [] || !IsDigit(rest[0])
    ensures Refs("$" + d + rest) == [Number(d)] + Refs(rest)
  {
    hide Number;
    var s := "$" + d + rest;
    DigitsOfPrefix(d, rest);
    RefsStep(s, d, rest);
  }

  lemma RefsStep(s: string, d: string, rest: string)
    requires s == "$" + d + rest && Digits(d + rest) == d && forall i :: 0 <= i < |d| ==> IsDigit(d[i])
    ensures Refs(s) == [Number(d)] + Refs(rest)
  {
    hide Number;
    hide Digits;
    assert s[0] == '$' && s[1..] == d + rest;
    assert s[1 + |d|..] == rest;
    assert Refs(s) == [Number(Digits(s[1..]))] + Refs(s[1 + |Digits(s[1..])|..]);
  }

  /** A parameter written into a text is the one read back. */
  lemma RefsOfParameter(a: string, n: nat, rest: string)
    requires '$' !in a && (rest == [] || !IsDigit(rest[0]))
    ensures Refs(a + "$" + Itoa(n) + rest) == [n] + Refs(rest)
  {
    hide Refs;
    hide Itoa;
    hide Number;
    ItoaIsItsNumber(n);
    RefsAtDollar(Itoa(n), rest);
    RefsSkip(a, "$" + Itoa(n) + rest);
    assert a + "$" + Itoa(n) + rest == a + ("$" + Itoa(n) + rest);
  }

  lemma {:induction false} ReplaceFirstAt(a: string, rest: string, with: string)
    requires '?' !in a
    ensures ReplaceFirst(a + "?" + rest, with) == a + with + rest
  {
    var s := a + "?" + rest;
    if a == [] {
      assert s[1..] == rest;
      assert a + with + rest == with + rest;
    } else {
      assert a[0] in a;
      assert s[1..] == a[1..] + "?" + rest;
      ReplaceFirstAt(a[1..], rest, with);
      assert a + with + rest == [a[0]] + (a[1..] + with + rest);
    }
  }

  /** A compiled clause refers to its own parameter first, and then to whatever its text already named. */
  lemma CompiledClauseRefs(a: string, n: nat, rest: string)
    requires '?' !in a && '$' !in a && (rest == [] || !IsDigit(rest[0]))
    ensures Refs(ReplaceFirst(a + "?" + rest, "$" + Itoa(n))) == [n] + Refs(rest)
  {
    hide Refs;
    hide Itoa;
    hide ReplaceFirst;
    ReplaceFirstAt(a, rest, "$" + Itoa(n));
    assert a + ("$" + Itoa(n)) + rest == a + "$" + Itoa(n) + rest;
    RefsOfParameter(a, n, rest);
  }

  lemma RefsOfMark(a: string, n: nat, rest: string)
    requires '$' !in a && (rest == [] || !IsDigit(rest[0]))
    ensures Refs(a + ("$" + Itoa(n)) + rest) == [n] + Refs(rest)
  {
    hide Refs;
    hide Itoa;
    RefsOfParameter(a, n, rest);
    assert a + "$" + Itoa(n) == a + ("$" + Itoa(n));
  }

  lemma Regroup(x: string, b: string, q: string, c: string, d: string)
    ensures x + b + q + c + q + d == x + (b + q + (c + q + d))
  {
    assert b + q + (c + q + d) == b + q + c + q + d;
    assert x + b + q + c + q + d == x + (b + q + c + q + d);
  }

  lemma RefsTwice(b: string, c: string, d: string, n: nat)
    requires '$' !in b && '$' !in c && '$' !in d
    requires c != [] && d != [] && !IsDigit(c[0]) && !IsDigit(d[0])
    ensures var q := "$" + Itoa(n); Refs(b + q + (c + q + d)) == [n, n]
  {
    hide Refs;
    hide Itoa;
    var q := "$" + Itoa(n);
    RefsOfText(d);
    RefsOfMark(c, n, d);
    assert (c + q + d)[0] == c[0];
    RefsOfMark(b, n, c + q + d);
  }

  /** A text that names one parameter three times. */
  lemma RefsThreeTimes(a: string, b: string, c: string, d: string, n: nat)
    requires '$' !in a && '$' !in b && '$' !in c && '$' !in d
    requires b != [] && c != [] && d != [] && !IsDigit(b[0]) && !IsDigit(c[0]) && !IsDigit(d[0])
    ensures var p := "$" + Itoa(n); Refs(a + p + b + p + c + p + d) == [n, n, n]
  {
    hide Refs;
    hide Itoa;
    var q := "$" + Itoa(n);
    RefsTwice(b, c, d, n);
    assert (b + q + (c + q + d))[0] == b[0];
    RefsOfMark(a, n, b + q + (c + q + d));
    Regroup(a + q, b, q, c, d);
  }
}
