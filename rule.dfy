/**
  The record `Rule` (niaarm/rule.py) that the archive of `NiaARM` stores, and
  the archive's notion of a duplicate: two rules are the same rule when their
  formatted antecedents and consequences are equal.
 */
module Rules {

  datatype Rule = Rule(
    antecedent: seq<string>,
    consequence: seq<string>,
    fitness: real,
    support: real,
    confidence: real,
    coverage: real,
    shrink: real)

  /** Some rule of `rules` has this antecedent and this consequence. */
  predicate Stored(rules: seq<Rule>, antecedent: seq<string>, consequence: seq<string>)
  {
    exists i :: 0 <= i < |rules| && rules[i].antecedent == antecedent && rules[i].consequence == consequence
  }

  /** No two rules of `rules` share both antecedent and consequence. */
  predicate NoDuplicates(rules: seq<Rule>)
  {
    forall i, j :: 0 <= i < j < |rules| ==>
      rules[i].antecedent != rules[j].antecedent || rules[i].consequence != rules[j].consequence
  }

  /** Appending keeps the archive free of duplicates exactly when the new rule is not stored yet. */
  lemma AppendNoDuplicates(rules: seq<Rule>, r: Rule)
    ensures NoDuplicates(rules + [r]) <==> NoDuplicates(rules) && !Stored(rules, r.antecedent, r.consequence)
  {
    var s := rules + [r];
    if NoDuplicates(s) {
      forall i | 0 <= i < |rules|
        ensures rules[i].antecedent != r.antecedent || rules[i].consequence != r.consequence
      {
        assert s[i] == rules[i] && s[|rules|] == r;
      }
      forall i, j | 0 <= i < j < |rules|
        ensures rules[i].antecedent != rules[j].antecedent || rules[i].consequence != rules[j].consequence
      {
        assert s[i] == rules[i] && s[j] == rules[j];
      }
    }
  }
}
