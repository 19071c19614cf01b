/**
  The class `NiaARM` (niaarm/niaarm.py): the fitness function that an
  external optimiser calls once per candidate vector. Each call decodes the
  vector into a rule through `AssociationRule`, scores it, archives it when it
  is new and has positive support and confidence, and tracks the best fitness
  seen so far.

  The pure functions `Collapse`, `Score` and `Step` say what one call does to
  the archive; the class methods are proved against them, and the lemmas state
  what the archive keeps over one call and over a run of calls.
 */
module NiaArm {
  import opened Wrappers
  import opened AssociationRules
  import opened Rules
  import opened RuleOrder

  /** The settings of a `NiaARM` object; none of them changes after construction. */
  datatype Config = Config(
    dimension: int,
    features: seq<Feature>,
    transactions: seq<Transaction>,
    alpha: real,
    beta: real,
    gamma: real,
    delta: real,
    arm: AssociationRule)

  /** The mutable state of a `NiaARM` object. `None` stands for negative infinity. */
  datatype Archive = Archive(rules: seq<Rule>, bestFitness: Option<real>)

  /** What one evaluation returns, and the state it leaves. */
  datatype Outcome = Outcome(fitness: real, archive: Archive)

  /** The metric values of one scored rule. */
  datatype Scores = Scores(fitness: real, support: real, confidence: real, coverage: real, shrinkage: real)

  /** `f > best`, where `None` is negative infinity. */
  predicate Exceeds(f: real, best: Option<real>)
  {
    best.None? || f > best.value
  }

  /** `b >= a`, where `None` is negative infinity. */
  predicate AtLeast(b: Option<real>, a: Option<real>)
  {
    a.None? || (b.Some? && b.value >= a.value)
  }

  lemma AtLeastTransitive(a: Option<real>, b: Option<real>, c: Option<real>)
    requires AtLeast(c, b) && AtLeast(b, a)
    ensures AtLeast(c, a)
  {
  }

  // ---------------------------------------------------------------------------
  // Degenerate intervals (is_border_value_the_same)

  /** An interval whose two bounds are equal. */
  predicate Degenerate(c: Component)
  {
    c.Interval? && c.lo == c.hi
  }

  /**
    The values a numeric entry allows: an interval is an inclusive range and a
    single value an equality test.
   */
  predicate Admits(c: Component, x: real)
  {
    match c
    case Interval(lo, hi) => lo <= x <= hi
    case Single(v) => x == v
    case _ => false
  }

  /**
    One step of `is_border_value_the_same`: an entry of length above one whose
    first two items are equal is replaced by its first item. Of the entry
    shapes only an interval can qualify: a category is a one-element list, and
    "NO" is a two-character string whose characters differ.
   */
  function Collapse(c: Component): (r: Component)
    ensures !Degenerate(r)
    ensures r != c ==> Degenerate(c) && r == Single(c.lo)
    ensures forall x :: Admits(r, x) == Admits(c, x)
    ensures r.No? == c.No? && r.Cat? == c.Cat?
  {
    if Degenerate(c) then Single(c.lo) else c
  }

  /** `Collapse` applied to every entry. */
  function CollapseAll(s: seq<Component>): (r: seq<Component>)
    ensures |r| == |s|
    ensures forall i :: 0 <= i < |s| ==> !Degenerate(r[i])
    ensures forall i :: 0 <= i < |s| ==> r[i] == s[i] || (Degenerate(s[i]) && r[i] == Single(s[i].lo))
  {
    seq(|s|, i requires 0 <= i < |s| => Collapse(s[i]))
  }

  /** Collapsing twice is collapsing once. */
  lemma CollapseAllIdempotent(s: seq<Component>)
    ensures CollapseAll(CollapseAll(s)) == CollapseAll(s)
  {
    var once := CollapseAll(s);
    assert forall i :: 0 <= i < |once| ==> CollapseAll(once)[i] == once[i];
  }

  /** Collapses every entry of `a` in place, one index after another. */
  method CollapseBorders(a: array<Component>)
    modifies a
    ensures a[..] == CollapseAll(old(a[..]))
  {
    var i := 0;
    while i < a.Length
      invariant 0 <= i <= a.Length
      invariant forall k :: 0 <= k < i ==> a[k] == Collapse(old(a[k]))
      invariant forall k :: i <= k < a.Length ==> a[k] == old(a[k])
    {
      if Degenerate(a[i]) {
        a[i] := Single(a[i].lo);
      }
      i := i + 1;
    }
  }

  // ---------------------------------------------------------------------------
  // Entries that are all "NO"

  /** `s.count("NO")`. */
  function CountNo(s: seq<Component>): (n: nat)
    ensures n <= |s|
  {
    if s == [] then 0 else (if s[0] == No then 1 else 0) + CountNo(s[1..])
  }

  /** The count of "NO" equals the length exactly when every entry is "NO". */
  lemma {:induction false} CountNoAll(s: seq<Component>)
    ensures CountNo(s) == |s| <==> forall i :: 0 <= i < |s| ==> s[i] == No
  {
    if s != [] {
      CountNoAll(s[1..]);
      assert forall i :: 1 <= i < |s| ==> s[i] == s[1..][i - 1];
    }
  }

  // ---------------------------------------------------------------------------
  // One evaluation (_evaluate) as a function of the archive

  /** The optimiser hands over vectors of the declared dimension. */
  predicate ValidInput(cfg: Config, sol: seq<real>)
  {
    cfg.dimension >= 1 && |sol| == cfg.dimension
  }

  /** Split off the cut-point value, decode the rest, and cut it into antecedent and consequence. */
  function Decode(cfg: Config, sol: seq<real>): (seq<Component>, seq<Component>)
    requires ValidInput(cfg, sol)
  {
    var cutValue := sol[cfg.dimension - 1];
    var solution := sol[..|sol| - 1];
    var cut := cfg.arm.getCutPoint(cutValue, |cfg.features|);
    var rule := cfg.arm.buildRule(solution);
    cfg.arm.getAntCon(rule, cut)
  }

  /** The metrics of a feasible rule; a zero weight switches shrinkage or coverage off. */
  function Score(cfg: Config, antecedent: seq<Component>, consequence: seq<Component>): Scores
  {
    var (support, confidence) := cfg.arm.calculateSupportConfidence(antecedent, consequence, cfg.transactions);
    var shrinkage := if cfg.gamma == 0.0 then 0.0 else cfg.arm.calculateShrinkage(antecedent, consequence);
    var coverage := if cfg.delta == 0.0 then 0.0 else cfg.arm.calculateCoverage(antecedent, consequence);
    var fitness := cfg.arm.calculateFitness(cfg.alpha, cfg.beta, cfg.gamma, cfg.delta,
                                            support, confidence, shrinkage, coverage);
    var fitness := if CountNo(antecedent) == |antecedent| || CountNo(consequence) == |consequence| then 0.0 else fitness;
    Scores(fitness, support, confidence, coverage, shrinkage)
  }

  /** The formatted antecedent and consequence under which a rule is archived. */
  function Formatted(cfg: Config, antecedent: seq<Component>, consequence: seq<Component>): (seq<string>, seq<string>)
  {
    cfg.arm.formatRules(CollapseAll(antecedent), CollapseAll(consequence))
  }

  /** The rule passes feasibility and has positive support and confidence. */
  predicate Accepted(cfg: Config, sol: seq<real>)
    requires ValidInput(cfg, sol)
  {
    var (antecedent, consequence) := Decode(cfg, sol);
    var s := Score(cfg, antecedent, consequence);
    cfg.arm.isRuleFeasible(antecedent, consequence) && s.support > 0.0 && s.confidence > 0.0
  }

  /** One call of `_evaluate` on `sol`, starting from `arch`. */
  function Step(cfg: Config, arch: Archive, sol: seq<real>): Outcome
    requires ValidInput(cfg, sol)
  {
    var (antecedent, consequence) := Decode(cfg, sol);
    if !cfg.arm.isRuleFeasible(antecedent, consequence) then Outcome(-1.0, arch)
    else
      var s := Score(cfg, antecedent, consequence);
      if s.support > 0.0 && s.confidence > 0.0 then
        var (antecedent1, consequence1) := Formatted(cfg, antecedent, consequence);
        var rules := if Stored(arch.rules, antecedent1, consequence1) then arch.rules
                     else arch.rules + [Rule(antecedent1, consequence1, s.fitness, s.support,
                                             s.confidence, s.coverage, s.shrinkage)];
        var best := if Exceeds(s.fitness, arch.bestFitness) then Some(s.fitness) else arch.bestFitness;
        Outcome(s.fitness, Archive(rules, best))
      else Outcome(s.fitness, arch)
  }

  /** The archive after evaluating the vectors of `sols` in order. */
  function Run(cfg: Config, arch: Archive, sols: seq<seq<real>>): Archive
    requires forall i :: 0 <= i < |sols| ==> ValidInput(cfg, sols[i])
    decreases |sols|
  {
    if sols == [] then arch else Run(cfg, Step(cfg, arch, sols[0]).archive, sols[1..])
  }

  // ---------------------------------------------------------------------------
  // Properties of one evaluation

  /** An infeasible rule returns -1.0 and leaves the archive as it was. */
  lemma StepInfeasible(cfg: Config, arch: Archive, sol: seq<real>)
    requires ValidInput(cfg, sol)
    requires !cfg.arm.isRuleFeasible(Decode(cfg, sol).0, Decode(cfg, sol).1)
    ensures Step(cfg, arch, sol) == Outcome(-1.0, arch)
  {
  }

  /**
    A feasible rule returns its score, and the score is 0.0 when every entry of
    the antecedent, or every entry of the consequence, is "NO".
   */
  lemma StepFitness(cfg: Config, arch: Archive, sol: seq<real>)
    requires ValidInput(cfg, sol)
    requires cfg.arm.isRuleFeasible(Decode(cfg, sol).0, Decode(cfg, sol).1)
    ensures var (antecedent, consequence) := Decode(cfg, sol);
            Step(cfg, arch, sol).fitness == Score(cfg, antecedent, consequence).fitness
    ensures var (antecedent, consequence) := Decode(cfg, sol);
            (forall i :: 0 <= i < |antecedent| ==> antecedent[i] == No) ||
            (forall i :: 0 <= i < |consequence| ==> consequence[i] == No)
            ==> Step(cfg, arch, sol).fitness == 0.0
  {
    var (antecedent, consequence) := Decode(cfg, sol);
    CountNoAll(antecedent);
    CountNoAll(consequence);
  }

  /** Earlier rules are never changed or removed, and at most one rule is added. */
  lemma StepKeepsRules(cfg: Config, arch: Archive, sol: seq<real>)
    requires ValidInput(cfg, sol)
    ensures var rules := Step(cfg, arch, sol).archive.rules;
            |arch.rules| <= |rules| <= |arch.rules| + 1 && rules[..|arch.rules|] == arch.rules
  {
  }

  /**
    A rule is added exactly when it is accepted and its formatted antecedent
    and consequence are not stored yet; the added rule carries the returned
    fitness and the scores, with shrinkage 0 when gamma is 0.0 and coverage 0
    when delta is 0.0.
   */
  lemma StepAdds(cfg: Config, arch: Archive, sol: seq<real>)
    requires ValidInput(cfg, sol)
    ensures var out := Step(cfg, arch, sol);
            var (antecedent, consequence) := Decode(cfg, sol);
            var (antecedent1, consequence1) := Formatted(cfg, antecedent, consequence);
            |out.archive.rules| == |arch.rules| + 1 <==>
              Accepted(cfg, sol) && !Stored(arch.rules, antecedent1, consequence1)
    ensures var out := Step(cfg, arch, sol);
            var (antecedent, consequence) := Decode(cfg, sol);
            var (antecedent1, consequence1) := Formatted(cfg, antecedent, consequence);
            var s := Score(cfg, antecedent, consequence);
            |out.archive.rules| == |arch.rules| + 1 ==>
              var r := out.archive.rules[|arch.rules|];
              && r == Rule(antecedent1, consequence1, out.fitness, s.support, s.confidence, s.coverage, s.shrinkage)
              && r.support > 0.0 && r.confidence > 0.0
              && (cfg.gamma == 0.0 ==> r.shrink == 0.0)
              && (cfg.delta == 0.0 ==> r.coverage == 0.0)
  {
  }

  /** No evaluation stores a second rule with an archived antecedent and consequence. */
  lemma StepNoDuplicates(cfg: Config, arch: Archive, sol: seq<real>)
    requires ValidInput(cfg, sol)
    requires NoDuplicates(arch.rules)
    ensures NoDuplicates(Step(cfg, arch, sol).archive.rules)
  {
    var (antecedent, consequence) := Decode(cfg, sol);
    if Accepted(cfg, sol) {
      var (antecedent1, consequence1) := Formatted(cfg, antecedent, consequence);
      var s := Score(cfg, antecedent, consequence);
      AppendNoDuplicates(arch.rules, Rule(antecedent1, consequence1, s.fitness, s.support,
                                          s.confidence, s.coverage, s.shrinkage));
    }
  }

  /**
    The best fitness never decreases; an accepted rule raises it to its fitness
    when that fitness is greater, so it becomes the maximum of the two, and
    otherwise it is unchanged.
   */
  lemma StepBestFitness(cfg: Config, arch: Archive, sol: seq<real>)
    requires ValidInput(cfg, sol)
    ensures var out := Step(cfg, arch, sol);
            AtLeast(out.archive.bestFitness, arch.bestFitness)
    ensures var out := Step(cfg, arch, sol);
            Accepted(cfg, sol) ==> AtLeast(out.archive.bestFitness, Some(out.fitness))
    ensures var out := Step(cfg, arch, sol);
            !Accepted(cfg, sol) ==> out.archive.bestFitness == arch.bestFitness
    ensures var out := Step(cfg, arch, sol);
            out.archive.bestFitness ==
              if Accepted(cfg, sol) && Exceeds(out.fitness, arch.bestFitness) then Some(out.fitness)
              else arch.bestFitness
  {
  }

  /** The fitness `_evaluate` returns for `sol`; it does not depend on the archive. */
  function Fitness(cfg: Config, sol: seq<real>): real
    requires ValidInput(cfg, sol)
  {
    var (antecedent, consequence) := Decode(cfg, sol);
    if !cfg.arm.isRuleFeasible(antecedent, consequence) then -1.0
    else Score(cfg, antecedent, consequence).fitness
  }

  lemma StepFitnessOf(cfg: Config, arch: Archive, sol: seq<real>)
    requires ValidInput(cfg, sol)
    ensures Step(cfg, arch, sol).fitness == Fitness(cfg, sol)
  {
  }

  // ---------------------------------------------------------------------------
  // Properties of a run of evaluations

  /** Over any run, the archive stays free of duplicates. */
  lemma {:induction false} RunNoDuplicates(cfg: Config, arch: Archive, sols: seq<seq<real>>)
    requires forall i :: 0 <= i < |sols| ==> ValidInput(cfg, sols[i])
    requires NoDuplicates(arch.rules)
    ensures NoDuplicates(Run(cfg, arch, sols).rules)
    decreases |sols|
  {
    if sols != [] {
      StepNoDuplicates(cfg, arch, sols[0]);
      RunNoDuplicates(cfg, Step(cfg, arch, sols[0]).archive, sols[1..]);
    }
  }

  /** Over any run, the best fitness never decreases. */
  lemma {:induction false} RunBestFitness(cfg: Config, arch: Archive, sols: seq<seq<real>>)
    requires forall i :: 0 <= i < |sols| ==> ValidInput(cfg, sols[i])
    ensures AtLeast(Run(cfg, arch, sols).bestFitness, arch.bestFitness)
    decreases |sols|
  {
    if sols != [] {
      var next := Step(cfg, arch, sols[0]).archive;
      StepBestFitness(cfg, arch, sols[0]);
      RunBestFitness(cfg, next, sols[1..]);
      AtLeastTransitive(arch.bestFitness, next.bestFitness, Run(cfg, next, sols[1..]).bestFitness);
    }
  }

  /**
    After any run, the best fitness is the maximum of the starting best and the
    fitness of every accepted rule of the run: it is at least each of them and
    equal to one of them.
   */
  lemma {:induction false} RunBestFitnessIsMaximum(cfg: Config, arch: Archive, sols: seq<seq<real>>)
    requires forall i :: 0 <= i < |sols| ==> ValidInput(cfg, sols[i])
    ensures AtLeast(Run(cfg, arch, sols).bestFitness, arch.bestFitness)
    ensures forall i :: 0 <= i < |sols| && Accepted(cfg, sols[i]) ==>
              AtLeast(Run(cfg, arch, sols).bestFitness, Some(Fitness(cfg, sols[i])))
    ensures || Run(cfg, arch, sols).bestFitness == arch.bestFitness
            || exists i :: 0 <= i < |sols| && Accepted(cfg, sols[i]) &&
                 Run(cfg, arch, sols).bestFitness == Some(Fitness(cfg, sols[i]))
    decreases |sols|
  {
    RunBestFitness(cfg, arch, sols);
    if sols != [] {
      var next := Step(cfg, arch, sols[0]).archive;
      var tail := sols[1..];
      var best := Run(cfg, next, tail).bestFitness;
      StepBestFitness(cfg, arch, sols[0]);
      StepFitnessOf(cfg, arch, sols[0]);
      RunBestFitnessIsMaximum(cfg, next, tail);
      forall i | 0 <= i < |sols| && Accepted(cfg, sols[i])
        ensures AtLeast(best, Some(Fitness(cfg, sols[i])))
      {
        if i == 0 {
          AtLeastTransitive(Some(Fitness(cfg, sols[0])), next.bestFitness, best);
        } else {
          assert sols[i] == tail[i - 1];
        }
      }
      if best != next.bestFitness {
        var j :| 0 <= j < |tail| && Accepted(cfg, tail[j]) && best == Some(Fitness(cfg, tail[j]));
        assert sols[j + 1] == tail[j];
      } else if next.bestFitness != arch.bestFitness {
        assert Accepted(cfg, sols[0]) && best == Some(Fitness(cfg, sols[0]));
      }
    }
  }

  /** Over any run, archived rules stay in place and each call adds at most one. */
  lemma {:induction false} RunKeepsRules(cfg: Config, arch: Archive, sols: seq<seq<real>>)
    requires forall i :: 0 <= i < |sols| ==> ValidInput(cfg, sols[i])
    ensures var rules := Run(cfg, arch, sols).rules;
            |arch.rules| <= |rules| <= |arch.rules| + |sols| && rules[..|arch.rules|] == arch.rules
    decreases |sols|
  {
    if sols != [] {
      var next := Step(cfg, arch, sols[0]).archive;
      StepKeepsRules(cfg, arch, sols[0]);
      RunKeepsRules(cfg, next, sols[1..]);
      var rules := Run(cfg, next, sols[1..]).rules;
      assert rules[..|arch.rules|] == rules[..|next.rules|][..|arch.rules|];
    }
  }

  // ---------------------------------------------------------------------------
  // The class

  class NiaARM {
    const dimension: int
    const features: seq<Feature>
    const transactions: seq<Transaction>
    const alpha: real
    const beta: real
    const gamma: real
    const delta: real
    /** The operations of the `AssociationRule` collaborator, fixed when the object is built. */
    const arm: AssociationRule

    var bestFitness: Option<real>
    var rules: seq<Rule>

    /** The archive never holds two rules with equal antecedent and consequence. */
    predicate Valid()
      reads this
    {
      NoDuplicates(rules)
    }

    function Settings(): Config
    {
      Config(dimension, features, transactions, alpha, beta, gamma, delta, arm)
    }

    function Snapshot(): Archive
      reads this
    {
      Archive(rules, bestFitness)
    }

    constructor (dimension: int, features: seq<Feature>, transactions: seq<Transaction>,
                 alpha: real, beta: real, gamma: real, delta: real, arm: AssociationRule)
      ensures Settings() == Config(dimension, features, transactions, alpha, beta, gamma, delta, arm)
      ensures rules == [] && bestFitness == None
      ensures Valid()
    {
      this.dimension := dimension;
      this.features := features;
      this.transactions := transactions;
      this.alpha := alpha;
      this.beta := beta;
      this.gamma := gamma;
      this.delta := delta;
      this.arm := arm;
      bestFitness := None;
      rules := [];
    }

    /** True when no archived rule has both this antecedent and this consequence. */
    method RuleNotExist(antecedent: seq<string>, consequence: seq<string>) returns (absent: bool)
      ensures absent <==> !Stored(rules, antecedent, consequence)
    {
      for i := 0 to |rules|
        invariant forall k :: 0 <= k < i ==>
          rules[k].antecedent != antecedent || rules[k].consequence != consequence
      {
        if rules[i].antecedent == antecedent && rules[i].consequence == consequence {
          return false;
        }
      }
      return true;
    }

    /** Collapses the degenerate intervals of both arrays in place. */
    static method IsBorderValueTheSame(antecedent: array<Component>, consequence: array<Component>)
      modifies antecedent, consequence
      ensures antecedent[..] == CollapseAll(old(antecedent[..]))
      ensures consequence[..] == CollapseAll(old(consequence[..]))
    {
      ghost var before := antecedent[..];
      CollapseBorders(antecedent);
      if consequence == antecedent {
        CollapseAllIdempotent(before);
      }
      CollapseBorders(consequence);
    }

    /** Reorders the archive by non-increasing fitness, keeping ties in order. */
    method SortRules()
      requires Valid()
      modifies this
      ensures Valid()
      ensures rules == SortByFitness(old(rules))
      ensures bestFitness == old(bestFitness)
    {
      SortByFitnessNoDuplicates(rules);
      rules := SortByFitness(rules);
    }

    /** Evaluates one candidate vector; see `Step`. */
    method Evaluate(sol: seq<real>) returns (fitness: real)
      requires Valid()
      requires ValidInput(Settings(), sol)
      modifies this
      ensures Valid()
      ensures Outcome(fitness, Snapshot()) == Step(Settings(), old(Snapshot()), sol)
    {
      ghost var before := Snapshot();
      var cutValue := sol[dimension - 1];
      var solution := sol[..|sol| - 1];
      var cut := arm.getCutPoint(cutValue, |features|);
      var rule := arm.buildRule(solution);
      var (antecedent, consequence) := arm.getAntCon(rule, cut);
      if arm.isRuleFeasible(antecedent, consequence) {
        var (support, confidence) := arm.calculateSupportConfidence(antecedent, consequence, transactions);
        var shrinkage := if gamma == 0.0 then 0.0 else arm.calculateShrinkage(antecedent, consequence);
        var coverage := if delta == 0.0 then 0.0 else arm.calculateCoverage(antecedent, consequence);
        fitness := arm.calculateFitness(alpha, beta, gamma, delta, support, confidence, shrinkage, coverage);
        if CountNo(antecedent) == |antecedent| || CountNo(consequence) == |consequence| {
          fitness := 0.0;
        }
        if support > 0.0 && confidence > 0.0 {
          var ant := new Component[|antecedent|](i requires 0 <= i < |antecedent| => antecedent[i]);
          var con := new Component[|consequence|](i requires 0 <= i < |consequence| => consequence[i]);
          assert ant[..] == antecedent && con[..] == consequence;
          IsBorderValueTheSame(ant, con);
          var (antecedent1, consequence1) := arm.formatRules(ant[..], con[..]);
          var absent := RuleNotExist(antecedent1, consequence1);
          if absent {
            AppendNoDuplicates(rules, Rule(antecedent1, consequence1, fitness, support, confidence, coverage, shrinkage));
            rules := rules + [Rule(antecedent1, consequence1, fitness, support, confidence, coverage, shrinkage)];
          }
          if Exceeds(fitness, bestFitness) {
            bestFitness := Some(fitness);
          }
        }
      } else {
        fitness := -1.0;
      }
    }
  }
}
