# NiaARM rule archive and evaluation, modelled in Dafny

NiaARM mines numeric and categorical association rules by asking a
population-based optimiser for real vectors in `[0,1]^d`. Each vector is
handed to the fitness function of the class `NiaARM`
(`niaarm/niaarm.py`). That function decodes the vector into an antecedent and
a consequence, scores the rule, and returns the fitness. It also keeps two
pieces of state: the archive of distinct rules found so far and the best
fitness seen.

This project models that class:

- `wrappers.dfy` (`Wrappers`): `Option`. `bestFitness` is an `Option<real>`, and `None` stands for the initial `-inf`.
- `association_rule.dfy` (`AssociationRules`): the shapes of decoded entries
  (`No` for the string `"NO"`, `Cat` for a one-element category list,
  `Interval` for a `[lo, hi]` pair, `Single` for the scalar that replaces an
  interval with equal bounds). It also has the record `AssociationRule`, which
  holds the collaborator class's operations as total functions. The source of
  that class is not part of this model. So nothing is assumed about what its
  operations compute, and every property below holds whatever they are.
- `rule.dfy` (`Rules`): the archived `Rule` record, the duplicate test and the
  no-duplicates invariant.
- `rule_order.dfy` (`RuleOrder`): what `rules.sort(key=fitness, reverse=True)`
  computes. Python's sort is stable even with `reverse`, so the model is a
  stable insertion sort by descending fitness. It is proved sorted, a
  permutation and stable. It is also proved to be the only list with those
  properties.
- `niaarm.dfy` (`NiaArm`): the class `NiaARM`, with its settings as `const`
  fields and `rules` and `bestFitness` as mutable fields. The pure function
  `Step` states what one `_evaluate` call does to an `Archive` value, and
  `Run` folds `Step` over a sequence of vectors. `Evaluate` follows the Python
  statement by statement. Its postcondition equates the returned fitness and
  the new state with `Step`, and the lemmas about `Step` and `Run` state what
  the archive keeps.

Points to note about what the code does:

- The fitness weights are the four numbers `alpha`, `beta`, `gamma` and
  `delta`, handed to `calculate_fitness` (niaarm/niaarm.py:148-149).
- An archived rule is a duplicate when its formatted antecedent and
  consequence are equal to a stored rule's. Formatting happens after intervals
  with equal bounds have been collapsed (niaarm/niaarm.py:157-163).
- The archive is sorted by fitness only, in descending order (niaarm/niaarm.py:116).
- The fitness of every rule with positive support and confidence is compared
  with the best fitness, and replaces it when it is greater. This includes a
  rule that was not appended because it was already stored (niaarm/niaarm.py:174-175).

## Model

| member | source | states |
|---|---|---|
| `NiaArm.NiaARM.constructor` | niaarm/niaarm.py:42-51 | stores the settings unchanged; starts with an empty archive and a best fitness of negative infinity; the archive invariant holds |
| `NiaArm.NiaARM.RuleNotExist` | niaarm/niaarm.py:63-67 | returns false exactly when some archived rule has both an equal antecedent and an equal consequence, otherwise true; changes nothing |
| `NiaArm.Collapse` | niaarm/niaarm.py:83-85 | an entry is changed only when it is an interval with equal bounds, and then it becomes the single value of that bound; the result is never such an interval; it admits the same values as the entry; "NO" and category entries stay as they are |
| `NiaArm.CollapseAll` | niaarm/niaarm.py:82-92 | keeps the length; each entry is kept or, if it is an interval with equal bounds, is replaced by its first bound; no such interval remains |
| `NiaArm.CollapseAllIdempotent` | niaarm/niaarm.py:82-92 | collapsing twice gives the same list as collapsing once; this is a property of the model that Python does not share, since a second pass over an already collapsed list raises `TypeError` (see Left out) |
| `NiaArm.CollapseBorders` | niaarm/niaarm.py:82-85 | the index loop leaves the array equal to the collapse of its old contents |
| `NiaArm.NiaARM.IsBorderValueTheSame` | niaarm/niaarm.py:82-92 | both arrays keep their length and end up equal to the collapse of their old contents; for two distinct arrays, which the model assumes `_evaluate` passes, this is what the two loops leave (see Left out for the same array passed twice) |
| `NiaArm.CountNo` | niaarm/niaarm.py:152 | `count("NO")` never exceeds the length |
| `NiaArm.CountNoAll` | niaarm/niaarm.py:152 | the count of "NO" equals the length if and only if every entry is "NO" |
| `RuleOrder.SortByFitness` | niaarm/niaarm.py:115-116 | the result has the same length and is a permutation of the input, ordered by non-increasing fitness |
| `RuleOrder.SortByFitnessStable` | niaarm/niaarm.py:116 | for every fitness value, the rules with that fitness keep their earlier relative order |
| `RuleOrder.SortByFitnessUnique` | niaarm/niaarm.py:116 | any list ordered by non-increasing fitness that keeps every fitness class in input order is exactly the sorted result |
| `RuleOrder.SortByFitnessNoDuplicates` | niaarm/niaarm.py:115-116 | sorting an archive without duplicates yields one without duplicates |
| `NiaArm.NiaARM.SortRules` | niaarm/niaarm.py:115-116 | the archive becomes the stable descending sort of its old contents; the invariant and the best fitness are kept |
| `Rules.AppendNoDuplicates` | niaarm/niaarm.py:162-163 | appending a rule keeps the archive free of duplicates if and only if the archive had none and the rule's antecedent and consequence were not stored |
| `NiaArm.Step` | niaarm/niaarm.py:118-180 | one call of `_evaluate` as a function of the archive: returns -1.0 for an infeasible rule, otherwise the score, appending the formatted rule when it is accepted and not stored, and raising the best fitness; no contract of its own, and its properties are the `Step*` lemmas |
| `NiaArm.Decode` | niaarm/niaarm.py:122-130 | splits off the last component as the cut value, decodes the rest and cuts it into antecedent and consequence through the collaborator; no contract of its own |
| `NiaArm.Score` | niaarm/niaarm.py:136-153 | support and confidence, shrinkage 0 when gamma is 0.0, coverage 0 when delta is 0.0, the collaborator's fitness forced to 0.0 when one side is all "NO"; no contract of its own, and `StepFitness` and `StepAdds` state these facts |
| `NiaArm.Formatted` | niaarm/niaarm.py:157-159 | the formatted antecedent and consequence of the collapsed entries; no contract of its own |
| `NiaArm.Accepted` | niaarm/niaarm.py:133-155 | the rule is feasible and has positive support and confidence; no contract of its own |
| `NiaArm.StepInfeasible` | niaarm/niaarm.py:133 | an infeasible decoded rule returns -1.0 and leaves the rules and the best fitness unchanged |
| `NiaArm.StepFitness` | niaarm/niaarm.py:138-153 | a feasible rule returns its computed fitness; that fitness is 0.0 when every antecedent entry or every consequence entry is "NO" |
| `NiaArm.StepKeepsRules` | niaarm/niaarm.py:155-172 | an evaluation never changes or removes archived rules and adds at most one |
| `NiaArm.StepAdds` | niaarm/niaarm.py:136-172 | a rule is appended if and only if it is feasible, has positive support and confidence, and its formatted antecedent and consequence are not stored; the appended rule carries the returned fitness and the computed scores, with shrinkage 0 when gamma is 0.0 and coverage 0 when delta is 0.0 |
| `NiaArm.StepNoDuplicates` | niaarm/niaarm.py:162-163 | an evaluation keeps the archive free of duplicates |
| `NiaArm.StepBestFitness` | niaarm/niaarm.py:155-175 | the best fitness never decreases; after an accepted rule it is exactly the maximum of the old best and the returned fitness (raised to the fitness when that is greater); otherwise it is unchanged |
| `NiaArm.Fitness` | niaarm/niaarm.py:133-153 | the fitness a call returns: -1.0 for an infeasible rule, otherwise the score; no contract of its own |
| `NiaArm.StepFitnessOf` | niaarm/niaarm.py:118-180 | the fitness a call returns does not depend on the archive: it is `Fitness` of the vector |
| `NiaArm.RunBestFitnessIsMaximum` | niaarm/niaarm.py:155-175 | after any sequence of evaluations the best fitness is the maximum of the starting best and the fitness of every accepted rule: at least each of them and equal to one of them |
| `NiaArm.RunNoDuplicates` | niaarm/niaarm.py:155-172 | over any sequence of evaluations the archive stays free of duplicates |
| `NiaArm.RunBestFitness` | niaarm/niaarm.py:174-175 | over any sequence of evaluations the best fitness never decreases |
| `NiaArm.RunKeepsRules` | niaarm/niaarm.py:155-172 | over any sequence of evaluations earlier rules stay in place and the archive grows by at most one rule per evaluation |
| `NiaArm.NiaARM.Evaluate` | niaarm/niaarm.py:118-180 | returns the fitness and leaves the state that `Step` gives for the old state and the vector; keeps the no-duplicates invariant |

## Left out

- `rules_to_csv` (file output through `csv` and `open`, and its console messages) is not modelled: it is I/O.
- The `print` of the new best fitness inside `_evaluate` is console output and is not modelled.
- The `niapy` `Problem` superclass and its `[0, 1]` bounds setup belong to a foreign library. The model assumes the caller passes a vector whose length is the declared dimension.
- NiaArm.NiaARM.Evaluate: the model requires a dimension of at least one. With dimension 0, Python raises `IndexError` at niaarm/niaarm.py:122 (`sol[-1]` on an empty vector); that error path is not modelled.
- The internals of `AssociationRule` are not modelled: decoding, the cut point, feasibility, support and confidence, shrinkage, coverage, fitness and formatting. Its source is not part of this model, so these are uninterpreted functions in the record `AssociationRules.AssociationRule`. The support and confidence test in `niaarm/tests/test_support_confidence.py` only exercises that class and the dataset loader, so it has no counterpart here.
- `niaarm/preprocess_text.py` (NLTK tokenising and word frequencies) is outside the modelled core.
- Floating point is modelled with reals, so NaN and rounding are not modelled. `np.NINF` becomes `None`.
- Concurrent evaluation is not modelled: the methods are sequential.
- Collapse: a `Single` entry is left unchanged, whereas Python's `len` on a scalar raises `TypeError`. Such a scalar reaches the loop when a list is passed that was already collapsed (next line).
- IsBorderValueTheSame: when both arguments are the same list and it holds an interval with equal bounds, Python raises `TypeError`. The first loop writes a float there (niaarm/niaarm.py:85) and the second loop calls `len` on it (niaarm/niaarm.py:88). The model collapses the list once instead. Running the method twice on one list fails in Python in the same way. The model assumes `get_ant_con` returns two distinct lists, so that `_evaluate` does not meet this case; that class is not part of this model.
- NiaArm.NiaARM.constructor: the Python constructor gives `alpha`, `beta`, `gamma` and `delta` a default of `0.0` (niaarm/niaarm.py:33-36). Dafny has no default arguments here, so callers pass all four. Every property holds for any weights.
- NiaArm.NiaARM.Evaluate: Python builds `AssociationRule(self.features)` afresh at the start of every `_evaluate` (niaarm/niaarm.py:120). The model takes its operations once, as the constructor argument `arm`, and does not tie them to `features`. Every property holds for any `arm`.
- IsBorderValueTheSame: the Python method also returns the two lists it changed. Those are the caller's own objects, so the model only changes them in place.
