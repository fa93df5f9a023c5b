/**
 * The text of a JSON value: as the handlers write it, without blanks, and as PostgreSQL reads
 * a JSONB column back, with a blank after every comma and colon. Scalars and names stand for
 * their own text, and members are in the column's order.
 */
module JsonText {

  datatype Value = Scalar(text: string) | List(items: seq<Value>) | Object(members: seq<Member>)

  datatype Member = Member(name: string, value: Value)

  /** The text with a given gap after each comma and colon. */
  function Written(v: Value, gap: string): string {
    match v
    case Scalar(text) => text
    case List(items) => "[" + Items(items, gap) + "]"
    case Object(members) => "{" + Members(members, gap) + "}"
  }

  function Items(items: seq<Value>, gap: string): string {
    if items == [] then ""
    else if |items| == 1 then Written(items[0], gap)
    else Items(items[..|items| - 1], gap) + "," + gap + Written(items[|items| - 1], gap)
  }

  function Members(members: seq<Member>, gap: string): string {
    if members == [] then ""
    else if |members| == 1 then Pair(members[0], gap)
    else Members(members[..|members| - 1], gap) + "," + gap + Pair(members[|members| - 1], gap)
  }

  function Pair(m: Member, gap: string): string { m.name + ":" + gap + Written(m.value, gap) }

  function Compact(v: Value): string { Written(v, "") }

  function Jsonb(v: Value): string { Written(v, " ") }

  /** The brackets, commas and colons, with the gap after each comma and colon. */
  lemma TextsOfTwo(a: Value, b: Value, name: string, other: string, gap: string)
    ensures Written(List([a, b]), gap) == "[" + (Written(a, gap) + "," + gap + Written(b, gap)) + "]"
    ensures Written(Object([Member(name, a), Member(other, b)]), gap)
         == "{" + ((name + ":" + gap + Written(a, gap)) + "," + gap + (other + ":" + gap + Written(b, gap))) + "}"
  {
    assert [a, b][..1] == [a] && [Member(name, a), Member(other, b)][..1] == [Member(name, a)];
    assert Items([a], gap) == Written(a, gap);
    var m, n := Member(name, a), Member(other, b);
    assert Members([m], gap) == Pair(m, gap);
    assert Members([m, n], gap) == Pair(m, gap) + "," + gap + Pair(n, gap);
  }

  /** No object with a member and no list of two, at any depth: nothing to put a blank after. */
  predicate Tight(v: Value) {
    match v
    case Scalar(_) => true
    case List(items) => items == [] || (|items| == 1 && Tight(items[0]))
    case Object(members) => members == []
  }

  lemma {:induction false} NotShorter(v: Value)
    ensures |Compact(v)| <= |Jsonb(v)| && (|Compact(v)| == |Jsonb(v)| ==> Tight(v))
    decreases v
  {
    match v
    case Scalar(_) =>
    case List(items) => ItemsNotShorter(items);
    case Object(members) => MembersNotShorter(members);
  }

  lemma {:induction false} ItemsNotShorter(items: seq<Value>)
    ensures |Items(items, "")| <= |Items(items, " ")|
    ensures |Items(items, "")| == |Items(items, " ")| ==> items == [] || (|items| == 1 && Tight(items[0]))
    decreases items
  {
    if items != [] {
      NotShorter(items[|items| - 1]);
      if |items| > 1 { ItemsNotShorter(items[..|items| - 1]); }
    }
  }

  lemma {:induction false} MembersNotShorter(members: seq<Member>)
    ensures |Members(members, "")| <= |Members(members, " ")|
    ensures |Members(members, "")| == |Members(members, " ")| ==> members == []
    decreases members
  {
    if members != [] {
      PairIsLonger(members[|members| - 1]);
      if |members| > 1 { MembersNotShorter(members[..|members| - 1]); }
    }
  }

  lemma {:induction false} PairIsLonger(m: Member)
    ensures |Pair(m, "")| < |Pair(m, " ")|
    decreases m
  {
    NotShorter(m.value);
  }

  /** The column reads back what was written exactly when there was nothing to space out. */
  lemma {:induction false} ReadsBackExactlyWhenTight(v: Value)
    ensures Jsonb(v) == Compact(v) <==> Tight(v)
    decreases v
  {
    if Tight(v) {
      match v
      case Scalar(_) =>
      case List(items) =>
        if items != [] {
          ReadsBackExactlyWhenTight(items[0]);
          assert Items(items, " ") == Jsonb(items[0]) && Items(items, "") == Compact(items[0]);
        }
      case Object(members) => assert Members(members, " ") == Members(members, "") == "";
    } else {
      NotShorter(v);
    }
  }
}
