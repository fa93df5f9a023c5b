/**
 * Search terms compiled to SQL LIKE patterns (database/console.go).
 *
 * The console wraps an operator's search term as "%" + escaped term + "%" and
 * compares with ILIKE ... ESCAPE '\'. The theorem is that this finds exactly the
 * texts in which the term occurs literally. LIKE itself is modelled from section
 * 8.5 of ISO/IEC 9075-2; `fold` is the case folding ILIKE applies to both sides
 * (the identity for LIKE).
 */
module LikePattern {
  import opened Options

  const ESCAPE := '\\'

  predicate IsSpecial(c: char) { c == '\\' || c == '%' || c == '_' }

  /** escapeLikePattern: one left-to-right pass that prefixes each special character. */
  function EscapeLikePattern(term: string): string {
    if term == [] then []
    else (if IsSpecial(term[0]) then [ESCAPE, term[0]] else [term[0]]) + EscapeLikePattern(term[1..])
  }

  /** How every caller wraps the escaped term. */
  function SearchPattern(term: string): string {
    "%" + EscapeLikePattern(term) + "%"
  }

  // ---- LIKE ------------------------------------------------------------------

  datatype Element = AnyRun | AnyOne | Literal(c: char)

  /** The elements of a pattern; None for a pattern that ends in a bare escape. */
  function Parse(p: string): Option<seq<Element>> {
    if p == [] then Some([])
    else if p[0] == ESCAPE then
      if |p| == 1 then None
      else Prepend(Literal(p[1]), Parse(p[2..]))
    else if p[0] == '%' then Prepend(AnyRun, Parse(p[1..]))
    else if p[0] == '_' then Prepend(AnyOne, Parse(p[1..]))
    else Prepend(Literal(p[0]), Parse(p[1..]))
  }

  function Prepend(e: Element, rest: Option<seq<Element>>): Option<seq<Element>> {
    match rest case None => None case Some(es) => Some([e] + es)
  }

  predicate Matches(fold: char -> char, es: seq<Element>, text: string)
    decreases |es| + |text|
  {
    if es == [] then text == []
    else match es[0]
      case AnyRun => Matches(fold, es[1..], text) || (text != [] && Matches(fold, es, text[1..]))
      case AnyOne => text != [] && Matches(fold, es[1..], text[1..])
      case Literal(c) => text != [] && fold(c) == fold(text[0]) && Matches(fold, es[1..], text[1..])
  }

  predicate Like(fold: char -> char, pattern: string, text: string) {
    match Parse(pattern)
    case None => false
    case Some(es) => Matches(fold, es, text)
  }

  /** A column against a pattern; NULL matches none. */
  predicate Found(fold: char -> char, column: Option<string>, pattern: string) {
    column.Some? && Like(fold, pattern, column.value)
  }

  // ---- The meaning a search is supposed to have ---------------------------------

  predicate OccursAt(fold: char -> char, term: string, text: string, i: nat) {
    i + |term| <= |text| && forall k :: 0 <= k < |term| ==> fold(term[k]) == fold(text[i + k])
  }

  ghost predicate Occurs(fold: char -> char, term: string, text: string) {
    exists i: nat :: OccursAt(fold, term, text, i)
  }

  function Literals(term: string): seq<Element> {
    seq(|term|, i requires 0 <= i < |term| => Literal(term[i]))
  }

  /** One escaped character parses to its literal. */
  lemma ParseOfEscapedOne(c: char, tail: string)
    ensures Parse((if IsSpecial(c) then [ESCAPE, c] else [c]) + tail) == Prepend(Literal(c), Parse(tail))
  {
    if IsSpecial(c) {
      assert ([ESCAPE, c] + tail)[2..] == tail;
    } else {
      assert ([c] + tail)[1..] == tail;
    }
  }

  lemma EscapedSplits(term: string, rest: string)
    requires term != []
    ensures EscapeLikePattern(term) + rest
         == (if IsSpecial(term[0]) then [ESCAPE, term[0]] else [term[0]]) + (EscapeLikePattern(term[1..]) + rest)
  {
    hide IsSpecial;
  }

  lemma LiteralsSplit(term: string, es: seq<Element>)
    requires term != []
    ensures Literals(term) + es == [Literal(term[0])] + (Literals(term[1..]) + es)
  {
  }

  /** Escaping is undone by parsing, whatever mix of %, _ and backslash the term holds. */
  lemma {:induction false} ParseOfEscaped(term: string, rest: string)
    ensures Parse(rest).Some? ==>
              Parse(EscapeLikePattern(term) + rest) == Some(Literals(term) + Parse(rest).value)
  {
    hide Parse;
    hide IsSpecial;
    if term == [] {
      assert EscapeLikePattern(term) + rest == rest;
      if Parse(rest).Some? { assert Literals(term) + Parse(rest).value == Parse(rest).value; }
    } else {
      EscapedSplits(term, rest);
      hide EscapeLikePattern;
      hide Literals;
      ParseOfEscaped(term[1..], rest);
      ParseOfEscapedOne(term[0], EscapeLikePattern(term[1..]) + rest);
      if Parse(rest).Some? { LiteralsSplit(term, Parse(rest).value); }
    }
  }

  /** A run of literals followed by % matches exactly the texts that start with the term. */
  lemma {:induction false} MatchesPrefix(fold: char -> char, term: string, text: string)
    ensures Matches(fold, Literals(term) + [AnyRun], text) <==> OccursAt(fold, term, text, 0)
    decreases |term|
  {
    var es := Literals(term) + [AnyRun];
    if term == [] {
      assert es == [AnyRun];
      TrailingRunMatchesAnything(fold, text);
    } else {
      assert es[0] == Literal(term[0]);
      assert es[1..] == Literals(term[1..]) + [AnyRun];
      if text != [] {
        MatchesPrefix(fold, term[1..], text[1..]);
        if OccursAt(fold, term[1..], text[1..], 0) && fold(term[0]) == fold(text[0]) {
          forall k | 0 <= k < |term| ensures fold(term[k]) == fold(text[0 + k]) {
            if k > 0 { assert term[k] == term[1..][k - 1] && text[k] == text[1..][0 + (k - 1)]; }
          }
        }
        if OccursAt(fold, term, text, 0) {
          assert fold(term[0]) == fold(text[0 + 0]);
          forall k | 0 <= k < |term[1..]| ensures fold(term[1..][k]) == fold(text[1..][0 + k]) {
            assert fold(term[k + 1]) == fold(text[0 + (k + 1)]);
          }
        }
      }
    }
  }

  lemma {:induction false} TrailingRunMatchesAnything(fold: char -> char, text: string)
    ensures Matches(fold, [AnyRun], text)
  {
    if text != [] { TrailingRunMatchesAnything(fold, text[1..]); }
  }

  lemma {:induction false} MatchesInfix(fold: char -> char, term: string, text: string)
    ensures Matches(fold, [AnyRun] + Literals(term) + [AnyRun], text) <==> Occurs(fold, term, text)
    decreases |text|
  {
    var es := [AnyRun] + Literals(term) + [AnyRun];
    assert es[1..] == Literals(term) + [AnyRun];
    MatchesPrefix(fold, term, text);
    if text == [] {
      if Occurs(fold, term, text) {
        var i: nat :| OccursAt(fold, term, text, i);
        assert OccursAt(fold, term, text, 0);
      }
    } else {
      MatchesInfix(fold, term, text[1..]);
      if Occurs(fold, term, text[1..]) {
        var i: nat :| OccursAt(fold, term, text[1..], i);
        forall k | 0 <= k < |term| ensures fold(term[k]) == fold(text[i + 1 + k]) {
          assert text[1..][i + k] == text[i + 1 + k];
        }
        assert OccursAt(fold, term, text, i + 1);
      }
      if Occurs(fold, term, text) && !OccursAt(fold, term, text, 0) {
        var i: nat :| OccursAt(fold, term, text, i);
        forall k | 0 <= k < |term| ensures fold(term[k]) == fold(text[1..][i - 1 + k]) {
          assert text[1..][i - 1 + k] == text[i + k];
        }
        assert OccursAt(fold, term, text[1..], i - 1);
      }
    }
  }

  /** A console search finds exactly the rows whose text contains the term literally. */
  lemma SearchFindsExactlyTheLiteralTerm(fold: char -> char, term: string, text: string)
    ensures Like(fold, SearchPattern(term), text) <==> Occurs(fold, term, text)
  {
    ParseOfEscaped(term, "%");
    assert Parse("%") == Some([AnyRun]) by {
      assert "%"[1..] == [];
      assert [AnyRun] + [] == [AnyRun];
    }
    var p := SearchPattern(term);
    assert p[1..] == EscapeLikePattern(term) + "%";
    assert p[0] == '%';
    assert Parse(p) == Some([AnyRun] + (Literals(term) + [AnyRun]));
    assert [AnyRun] + (Literals(term) + [AnyRun]) == [AnyRun] + Literals(term) + [AnyRun];
    MatchesInfix(fold, term, text);
  }
}
