/**
  The collaborator class `AssociationRule` (niaarm/association_rule.py) that
  `NiaARM` builds from its features. Its source is not part of this model, so
  its operations are uninterpreted: a value of the record type below bundles
  one total function per method, and nothing is assumed about what they
  compute.
 */
module AssociationRules {

  /** Column types of a dataset. */
  datatype DType = Float | Int | Categorical

  /** One column of the dataset: numeric bounds or the category list. */
  datatype Feature = Feature(
    name: string,
    dtype: DType,
    minVal: real,
    maxVal: real,
    categories: seq<string>)

  /** One observed value of a transaction. */
  datatype Cell = Number(x: real) | Text(s: string)

  /** A transaction maps a feature name to its observed value. */
  type Transaction = map<string, Cell>

  /**
    One entry of a decoded antecedent or consequence, as the Python code holds
    it:
    - `No` is the string "NO": the feature is not selected;
    - `Cat(c)` is the one-element list `[c]` of a chosen category;
    - `Interval(lo, hi)` is the two-element list `[lo, hi]` of a numeric range;
    - `Single(v)` is the scalar `v` that replaces an interval whose bounds agree.
   */
  datatype Component = No | Cat(category: string) | Interval(lo: real, hi: real) | Single(value: real)

  /**
    The methods of `AssociationRule(features)` used by `NiaARM._evaluate`, in
    that class's own argument order. A formatted antecedent or consequence
    (feature names added, `No` entries removed) is a sequence of strings.
   */
  datatype AssociationRule = AssociationRule(
    getCutPoint: (real, int) -> int,
    buildRule: seq<real> -> seq<Component>,
    getAntCon: (seq<Component>, int) -> (seq<Component>, seq<Component>),
    isRuleFeasible: (seq<Component>, seq<Component>) -> bool,
    calculateSupportConfidence: (seq<Component>, seq<Component>, seq<Transaction>) -> (real, real),
    calculateShrinkage: (seq<Component>, seq<Component>) -> real,
    calculateCoverage: (seq<Component>, seq<Component>) -> real,
    calculateFitness: (real, real, real, real, real, real, real, real) -> real,
    formatRules: (seq<Component>, seq<Component>) -> (seq<string>, seq<string>))
}
