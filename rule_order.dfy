/**
  What `self.rules.sort(key=lambda x: x.fitness, reverse=True)` computes:
  Python's sort is stable also when `reverse` is set, so the result lists the
  rules by non-increasing fitness and keeps rules of equal fitness in their
  earlier order. `SortByFitness` is that function, written as an insertion
  sort, with the properties that characterise it.
 */
module RuleOrder {
  import opened Rules

  /** Fitness never increases along `rules`. */
  predicate SortedByFitness(rules: seq<Rule>)
  {
    forall i, j :: 0 <= i < j < |rules| ==> rules[i].fitness >= rules[j].fitness
  }

  /** The rules of `rules` whose fitness is `f`, in their order in `rules`. */
  function WithFitness(rules: seq<Rule>, f: real): seq<Rule>
  {
    if rules == [] then []
    else (if rules[0].fitness == f then [rules[0]] else []) + WithFitness(rules[1..], f)
  }

  /** Puts `x` in front of the first rule whose fitness does not exceed its own. */
  function Insert(x: Rule, rules: seq<Rule>): (r: seq<Rule>)
    ensures |r| == |rules| + 1
    ensures multiset(r) == multiset(rules) + multiset{x}
  {
    if rules == [] || x.fitness >= rules[0].fitness then [x] + rules
    else
      assert rules == [rules[0]] + rules[1..];
      [rules[0]] + Insert(x, rules[1..])
  }

  /** Every rule of `Insert(x, rules)` is `x` or a rule of `rules`. */
  lemma InsertMembers(x: Rule, rules: seq<Rule>, y: Rule)
    requires y in Insert(x, rules)
    ensures y == x || y in rules
  {
    assert y in multiset(Insert(x, rules));
  }

  lemma {:induction false} InsertSorted(x: Rule, rules: seq<Rule>)
    requires SortedByFitness(rules)
    ensures SortedByFitness(Insert(x, rules))
  {
    if rules != [] && x.fitness < rules[0].fitness {
      var tail := rules[1..];
      InsertSorted(x, tail);
      var rest := Insert(x, tail);
      forall j | 0 <= j < |rest| ensures rules[0].fitness >= rest[j].fitness {
        InsertMembers(x, tail, rest[j]);
      }
      var r := [rules[0]] + rest;
      forall i, j | 0 <= i < j < |r| ensures r[i].fitness >= r[j].fitness {
        assert r[j] == rest[j - 1];
        if i > 0 {
          assert r[i] == rest[i - 1];
        }
      }
    }
  }

  /** Stable sort by descending fitness. */
  function SortByFitness(rules: seq<Rule>): (r: seq<Rule>)
    ensures |r| == |rules|
    ensures multiset(r) == multiset(rules)
    ensures SortedByFitness(r)
  {
    if rules == [] then []
    else
      assert rules == [rules[0]] + rules[1..];
      InsertSorted(rules[0], SortByFitness(rules[1..]));
      Insert(rules[0], SortByFitness(rules[1..]))
  }

  lemma {:induction false} InsertWithFitness(x: Rule, rules: seq<Rule>, f: real)
    ensures WithFitness(Insert(x, rules), f) == (if x.fitness == f then [x] else []) + WithFitness(rules, f)
  {
    if rules == [] || x.fitness >= rules[0].fitness {
      var r := [x] + rules;
      assert r[0] == x && r[1..] == rules;
    } else {
      InsertWithFitness(x, rules[1..], f);
      var r := [rules[0]] + Insert(x, rules[1..]);
      assert r[0] == rules[0] && r[1..] == Insert(x, rules[1..]);
    }
  }

  /** Stability: for every fitness value, the rules having it keep their relative order. */
  lemma {:induction false} SortByFitnessStable(rules: seq<Rule>, f: real)
    ensures WithFitness(SortByFitness(rules), f) == WithFitness(rules, f)
  {
    if rules != [] {
      SortByFitnessStable(rules[1..], f);
      InsertWithFitness(rules[0], SortByFitness(rules[1..]), f);
    }
  }

  /** A rule of `WithFitness(rules, f)` is a rule of `rules` of fitness `f`. */
  lemma {:induction false} WithFitnessMembers(rules: seq<Rule>, f: real, y: Rule)
    requires y in WithFitness(rules, f)
    ensures y in rules && y.fitness == f
  {
    if rules[0] != y || rules[0].fitness != f {
      WithFitnessMembers(rules[1..], f, y);
    }
  }

  /** The first rule opens the list of rules sharing its fitness. */
  lemma WithFitnessHead(rules: seq<Rule>)
    ensures rules != [] ==> WithFitness(rules, rules[0].fitness) != [] &&
                            WithFitness(rules, rules[0].fitness)[0] == rules[0]
  {
  }

  lemma WithFitnessTail(r: seq<Rule>, t: seq<Rule>, f: real)
    requires r != [] && t != [] && r[0] == t[0]
    requires WithFitness(r, f) == WithFitness(t, f)
    ensures WithFitness(r[1..], f) == WithFitness(t[1..], f)
  {
    var head := if r[0].fitness == f then [r[0]] else [];
    assert WithFitness(r[1..], f) == (head + WithFitness(r[1..], f))[|head|..];
    assert WithFitness(t[1..], f) == (head + WithFitness(t[1..], f))[|head|..];
  }

  /**
    Two sorted lists that agree on the rules of every fitness are equal: the
    order of a stable descending sort is fully determined.
   */
  lemma {:induction false} SortedUnique(r: seq<Rule>, t: seq<Rule>)
    requires SortedByFitness(r) && SortedByFitness(t)
    requires forall f :: WithFitness(r, f) == WithFitness(t, f)
    ensures r == t
    decreases |r|
  {
    WithFitnessHead(r);
    WithFitnessHead(t);
    if r != [] && t != [] {
      WithFitnessMembers(t, r[0].fitness, r[0]);
      WithFitnessMembers(r, t[0].fitness, t[0]);
      assert r[0] == WithFitness(t, r[0].fitness)[0] == t[0];
      forall f ensures WithFitness(r[1..], f) == WithFitness(t[1..], f) {
        WithFitnessTail(r, t, f);
      }
      SortedUnique(r[1..], t[1..]);
      assert r == [r[0]] + r[1..] && t == [t[0]] + t[1..];
    }
  }

  /** `SortByFitness(rules)` is the only sorted list that keeps every fitness class of `rules` in order. */
  lemma SortByFitnessUnique(rules: seq<Rule>, r: seq<Rule>)
    requires SortedByFitness(r)
    requires forall f :: WithFitness(r, f) == WithFitness(rules, f)
    ensures r == SortByFitness(rules)
  {
    forall f ensures WithFitness(SortByFitness(rules), f) == WithFitness(rules, f) {
      SortByFitnessStable(rules, f);
    }
    SortedUnique(r, SortByFitness(rules));
  }

  lemma {:induction false} InsertNoDuplicates(x: Rule, rules: seq<Rule>)
    requires NoDuplicates(rules)
    requires !Stored(rules, x.antecedent, x.consequence)
    ensures NoDuplicates(Insert(x, rules))
  {
    if rules == [] || x.fitness >= rules[0].fitness {
      var r := [x] + rules;
      forall i, j | 0 <= i < j < |r|
        ensures r[i].antecedent != r[j].antecedent || r[i].consequence != r[j].consequence
      {
        assert r[j] == rules[j - 1];
        if i > 0 {
          assert r[i] == rules[i - 1];
        }
      }
    } else {
      var tail := rules[1..];
      assert !Stored(tail, x.antecedent, x.consequence) by {
        forall k | 0 <= k < |tail|
          ensures tail[k].antecedent != x.antecedent || tail[k].consequence != x.consequence
        {
          assert rules[k + 1] == tail[k];
        }
      }
      assert NoDuplicates(tail) by {
        forall i, j | 0 <= i < j < |tail|
          ensures tail[i].antecedent != tail[j].antecedent || tail[i].consequence != tail[j].consequence
        {
          assert tail[i] == rules[i + 1] && tail[j] == rules[j + 1];
        }
      }
      InsertNoDuplicates(x, tail);
      var rest := Insert(x, tail);
      forall j | 0 <= j < |rest|
        ensures rules[0].antecedent != rest[j].antecedent || rules[0].consequence != rest[j].consequence
      {
        var y := rest[j];
        InsertMembers(x, tail, y);
        if y != x {
          var k :| 0 <= k < |tail| && tail[k] == y;
          assert rules[k + 1] == y;
        }
      }
      var r := [rules[0]] + rest;
      forall i, j | 0 <= i < j < |r|
        ensures r[i].antecedent != r[j].antecedent || r[i].consequence != r[j].consequence
      {
        assert r[j] == rest[j - 1];
        if i > 0 {
          assert r[i] == rest[i - 1];
        }
      }
    }
  }

  /** Sorting never creates a duplicate. */
  lemma {:induction false} SortByFitnessNoDuplicates(rules: seq<Rule>)
    requires NoDuplicates(rules)
    ensures NoDuplicates(SortByFitness(rules))
  {
    if rules != [] {
      var tail := rules[1..];
      assert NoDuplicates(tail) by {
        forall i, j | 0 <= i < j < |tail|
          ensures tail[i].antecedent != tail[j].antecedent || tail[i].consequence != tail[j].consequence
        {
          assert tail[i] == rules[i + 1] && tail[j] == rules[j + 1];
        }
      }
      SortByFitnessNoDuplicates(tail);
      var sorted := SortByFitness(tail);
      assert !Stored(sorted, rules[0].antecedent, rules[0].consequence) by {
        forall k | 0 <= k < |sorted|
          ensures sorted[k].antecedent != rules[0].antecedent || sorted[k].consequence != rules[0].consequence
        {
          assert sorted[k] in multiset(tail);
          var m :| 0 <= m < |tail| && tail[m] == sorted[k];
          assert rules[m + 1] == sorted[k];
        }
      }
      InsertNoDuplicates(rules[0], sorted);
    }
  }
}
