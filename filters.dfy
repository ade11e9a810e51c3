/**
 * `applyFilters`: the rules shown are those, in list order, that pass all four
 * filter inputs. Every input and every rule field is lower-cased first; an
 * empty input does not filter.
 */
module Filters {
  import opened Wrappers
  import opened JsStrings
  import opened JsParseInt
  import opened Rules

  /** The raw values of the four filter inputs. */
  datatype Criteria = Criteria(searchText: string, startLetter: string, wordFilter: string, keywordFilter: string)

  /** What the Reset button leaves in the inputs. */
  function Blank(): Criteria {
    Criteria("", "", "", "")
  }

  /** Search and keyword: the whole input occurs in the title or in the description. */
  predicate Mentions(q: string, title: string, desc: string) {
    q == [] || Includes(title, q) || Includes(desc, q)
  }

  /** Start letter: the title begins with the whole input. */
  predicate StartsWith(p: string, title: string) {
    p == [] || p <= title
  }

  /**
   * Length: the input is read with `parseInt`; if that gives NaN there is no
   * constraint, otherwise the title or the description must be at most that
   * many code units long.
   */
  predicate WithinLength(w: string, title: string, desc: string) {
    w == [] ||
    match ParseInt(w)
    case None => true
    case Some(n) => CodeUnits(title) <= n || CodeUnits(desc) <= n
  }

  /** The callback given to `rules.filter`. */
  predicate Matches(c: Criteria, rule: Rule): (b: bool)
    ensures c == Blank() ==> b
  {
    var title := Lower(rule.title);
    var desc := Lower(rule.desc);
    && Mentions(Lower(c.searchText), title, desc)
    && StartsWith(Lower(c.startLetter), title)
    && WithinLength(Lower(c.wordFilter), title, desc)
    && Mentions(Lower(c.keywordFilter), title, desc)
  }

  /** `s` is `t` with some elements left out and the rest in their order. */
  ghost predicate Subsequence<T>(s: seq<T>, t: seq<T>) {
    if s == [] then true
    else if t == [] then false
    else (s[0] == t[0] && Subsequence(s[1..], t[1..])) || Subsequence(s, t[1..])
  }

  /**
   * The rules `applyFilters` displays: every occurrence of a matching rule, and
   * nothing else, in the order of the list.
   */
  function ApplyFilters(rules: seq<Rule>, c: Criteria): (shown: seq<Rule>)
    ensures Subsequence(shown, rules)
    ensures forall x :: multiset(shown)[x] == if Matches(c, x) then multiset(rules)[x] else 0
    ensures forall x :: x in shown <==> x in rules && Matches(c, x)
  {
    if rules == [] then []
    else
      var rest := ApplyFilters(rules[1..], c);
      assert rules == [rules[0]] + rules[1..];
      if Matches(c, rules[0]) then [rules[0]] + rest else rest
  }

  /** Reset empties every input and shows the whole list: blank criteria keep every rule, in order. */
  lemma {:induction false} BlankShowsAll(rules: seq<Rule>)
    ensures ApplyFilters(rules, Blank()) == rules
  {
    if rules != [] {
      BlankShowsAll(rules[1..]);
      assert Matches(Blank(), rules[0]);
    }
  }

  /** Filtering the shown rules again with the same inputs changes nothing. */
  lemma {:induction false} FilterIdempotent(rules: seq<Rule>, c: Criteria)
    ensures ApplyFilters(ApplyFilters(rules, c), c) == ApplyFilters(rules, c)
  {
    if rules != [] {
      FilterIdempotent(rules[1..], c);
      var rest := ApplyFilters(rules[1..], c);
      if Matches(c, rules[0]) {
        assert ([rules[0]] + rest)[1..] == rest;
      }
    }
  }

  /**
   * The length input, read on the raw rule: with no leading integer every rule
   * passes; otherwise the title or the description must have at most `n`
   * code units. Lower-casing does not change a length.
   */
  lemma LengthCriterion(w: string, rule: Rule)
    ensures WithinLength(Lower(w), Lower(rule.title), Lower(rule.desc)) <==>
      match ParseInt(Lower(w))
      case None => true
      case Some(n) => CodeUnits(rule.title) <= n || CodeUnits(rule.desc) <= n
  {
    LowerKeepsCodeUnits(rule.title);
    LowerKeepsCodeUnits(rule.desc);
    if Lower(w) == [] {
      assert ParseInt(Lower(w)) == None by {
        assert TrimStart([]) == [];
      }
    }
  }

  /** A negative length admits no rule: no text is shorter than zero. */
  lemma NegativeLengthShowsNothing(rules: seq<Rule>, c: Criteria, n: int)
    requires ParseInt(Lower(c.wordFilter)) == Some(n) && n < 0
    ensures ApplyFilters(rules, c) == []
  {
    var shown := ApplyFilters(rules, c);
    if shown != [] {
      assert shown[0] in shown;
      LengthCriterion(c.wordFilter, shown[0]);
    }
  }

  /** The length input "5w" is read as the number 5. */
  lemma FiveWReadsFive()
    ensures ParseInt(Lower("5w")) == Some(5)
  {
    assert Lower("5w") == "5w";
    ParseIntReadsLeadingNumeral("", 5, "w");
    assert "" + Show(5) + "w" == "5w";
  }

  /** A rule whose title and description are both longer than the bound is not shown. */
  lemma LongRulesHidden(rules: seq<Rule>, c: Criteria, n: int)
    requires ParseInt(Lower(c.wordFilter)) == Some(n)
    requires forall x :: x in rules ==> |x.title| > n && |x.desc| > n
    ensures ApplyFilters(rules, c) == []
  {
    var shown := ApplyFilters(rules, c);
    if shown != [] {
      assert shown[0] in shown;
      LengthCriterion(c.wordFilter, shown[0]);
    }
  }

  /**
   * So "5w" bounds lengths, not words: every default rule has a title and a
   * description longer than five characters, and none is shown.
   */
  lemma FiveWHidesDefaults()
    ensures ApplyFilters(Defaults(), Criteria("", "", "5w", "")) == []
  {
    var d := Defaults();
    assert |d| == 4;
    assert |d[0].title| == 11 && |d[1].title| == 12 && |d[2].title| == 20 && |d[3].title| == 11;
    assert |d[0].desc| > 5 && |d[1].desc| > 5 && |d[2].desc| > 5 && |d[3].desc| > 5;
    assert forall x :: x in d ==> |x.title| > 5 && |x.desc| > 5;
    FiveWReadsFive();
    LongRulesHidden(d, Criteria("", "", "5w", ""), 5);
  }

  /**
   * The start-letter input is one prefix, not a set of letters: for a title
   * such as "Use Seatbelt", "u" admits it and "uw" does not.
   */
  lemma StartLetterIsWholePrefix(title: string)
    requires |title| >= 2 && LowerChar(title[0]) == 'u' && LowerChar(title[1]) != 'w'
    ensures StartsWith(Lower("u"), Lower(title))
    ensures !StartsWith(Lower("uw"), Lower(title))
  {
    assert Lower("u") == "u";
    assert Lower("uw")[1] == 'w';
  }
}
