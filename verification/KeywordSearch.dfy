/** KeywordsUtil::ScanIdContinueMaybeKeyword: the keyword an escaped identifier spells. */
module KeywordSearch {

  datatype Keyword = Keyword(str: string, tokenType: nat)

  /** std::string_view::compare: negative, zero or positive. */
  function Compare(a: string, b: string): int {
    if a == [] && b == [] then 0
    else if a == [] then -1
    else if b == [] then 1
    else if a[0] != b[0] then (if a[0] < b[0] then -1 else 1)
    else Compare(a[1..], b[1..])
  }

  predicate StrictlySorted(keywords: seq<Keyword>) {
    forall i, j {:trigger keywords[i], keywords[j]} :: 0 <= i < j < |keywords| ==>
      Compare(keywords[i].str, keywords[j].str) < 0
  }

  lemma {:induction false} CompareEqual(a: string, b: string)
    ensures Compare(a, b) == 0 <==> a == b
  {
    if a != [] && b != [] && a[0] == b[0] {
      CompareEqual(a[1..], b[1..]);
      assert a == [a[0]] + a[1..] && b == [b[0]] + b[1..];
    }
  }

  lemma {:induction false} CompareTransitive(a: string, b: string, c: string)
    ensures Compare(a, b) <= 0 && Compare(b, c) < 0 ==> Compare(a, c) < 0
    ensures Compare(a, b) < 0 && Compare(b, c) <= 0 ==> Compare(a, c) < 0
  {
    if a != [] && b != [] && c != [] && a[0] == b[0] == c[0] {
      CompareTransitive(a[1..], b[1..], c[1..]);
    }
  }

  lemma {:induction false} CompareFlips(a: string, b: string)
    ensures Compare(a, b) > 0 <==> Compare(b, a) < 0
  {
    if a != [] && b != [] && a[0] == b[0] {
      CompareFlips(a[1..], b[1..]);
    }
  }

  predicate Spells(keywords: seq<Keyword>, i: nat, str: string) {
    i < |keywords| && keywords[i].str == str
  }

  /** Every keyword before `start` is smaller than `str`; none from `end` on is, and a hit is the one at `end`. */
  ghost predicate Narrowed(keywords: seq<Keyword>, str: string, start: nat, end: nat, found: seq<Keyword>) {
    && start <= end <= |keywords|
    && (forall k {:trigger keywords[k]} :: 0 <= k < start ==> Compare(str, keywords[k].str) > 0)
    && (forall k {:trigger keywords[k]} :: end <= k < |keywords| ==> Compare(str, keywords[k].str) <= 0)
    && (if found == [] then forall k {:trigger keywords[k]} :: end <= k < |keywords| ==> keywords[k].str != str
        else end < |keywords| && keywords[end].str == str && found == [keywords[end]])
  }

  lemma GoesRight(keywords: seq<Keyword>, str: string, start: nat, end: nat, found: seq<Keyword>, middle: nat)
    requires StrictlySorted(keywords) && Narrowed(keywords, str, start, end, found) && start <= middle < end
    requires Compare(str, keywords[middle].str) > 0
    ensures Narrowed(keywords, str, middle + 1, end, found)
  {
    hide Compare;
    forall k {:trigger keywords[k]} | 0 <= k < middle
      ensures Compare(str, keywords[k].str) > 0
    {
      LargerThanAll(str, keywords[k].str, keywords[middle].str);
    }
  }

  lemma LargerThanAll(str: string, smaller: string, middle: string)
    requires Compare(smaller, middle) < 0 && Compare(str, middle) > 0
    ensures Compare(str, smaller) > 0
  {
    hide Compare;
    CompareFlips(str, middle);
    CompareTransitive(smaller, middle, str);
    CompareFlips(str, smaller);
  }

  lemma GoesLeft(keywords: seq<Keyword>, str: string, start: nat, end: nat, found: seq<Keyword>, middle: nat)
    requires StrictlySorted(keywords) && Narrowed(keywords, str, start, end, found) && start <= middle < end
    requires Compare(str, keywords[middle].str) <= 0
    ensures found == []
    ensures Narrowed(keywords, str, start, middle,
                     if Compare(str, keywords[middle].str) == 0 then [keywords[middle]] else [])
  {
    hide Compare;
    if found != [] {
      CompareTransitive(str, keywords[middle].str, keywords[end].str);
      CompareEqual(str, str);
      assert false;
    }
    forall k | middle <= k < |keywords|
      ensures Compare(str, keywords[k].str) <= 0 && (k > middle ==> keywords[k].str != str)
    {
      if k > middle {
        CompareTransitive(str, keywords[middle].str, keywords[k].str);
        CompareEqual(str, keywords[k].str);
      }
    }
    CompareEqual(str, keywords[middle].str);
  }

  lemma NothingLeft(keywords: seq<Keyword>, str: string, start: nat, end: nat, found: seq<Keyword>)
    requires Narrowed(keywords, str, start, end, found) && start >= end
    ensures found != [] <==> exists i: nat :: Spells(keywords, i, str)
    ensures found != [] ==> Spells(keywords, end, str) && found == [keywords[end]]
  {
    forall i: nat | Spells(keywords, i, str)
      ensures found != []
    {
      CompareEqual(str, keywords[i].str);
    }
    assert found != [] ==> Spells(keywords, end, str);
  }

  /** The search goes on after a hit; `found` records the calls of SetKeyword. */
  method ScanIdContinueMaybeKeyword(keywords: seq<Keyword>, str: string, hasEscape: bool) returns (found: seq<Keyword>)
    requires StrictlySorted(keywords)
    ensures found != [] <==> hasEscape && exists i: nat :: Spells(keywords, i, str)
    ensures found != [] ==> |found| == 1 && found[0] in keywords && found[0].str == str
  {
    hide Compare, Narrowed, StrictlySorted;
    found := [];
    if !hasEscape || |keywords| == 0 {
      return;
    }
    var start, end := 0, |keywords|;
    var middle := end / 2;
    Unsearched(keywords, str);
    while true
      invariant 0 <= start <= middle < end <= |keywords|
      invariant Narrowed(keywords, str, start, end, found)
      decreases end - start
    {
      var relation := Compare(str, keywords[middle].str);
      if relation > 0 {
        GoesRight(keywords, str, start, end, found, middle);
      } else {
        GoesLeft(keywords, str, start, end, found, middle);
      }
      if relation == 0 {
        found := found + [keywords[middle]];
        assert found == [keywords[middle]];
      }
      if relation > 0 {
        start := middle + 1;
      } else {
        end := middle;
      }
      middle := (start + end) / 2;
      if start >= end {
        NothingLeft(keywords, str, start, end, found);
        return;
      }
    }
  }

  lemma Unsearched(keywords: seq<Keyword>, str: string)
    ensures Narrowed(keywords, str, 0, |keywords|, [])
  {
  }
}
