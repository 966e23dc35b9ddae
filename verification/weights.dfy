/**
  The weighting of the continuous assessment (CA) against the final exam.
  Two fixed sets of module codes carry a 40/60 and a 50/50 split; every other
  code, the "Unknown" sentinel included, takes the final-exam percentage the
  user enters (an integer between 10 and 90) and gives the CA the rest.
 */
module WeightPolicy {
  import opened Chars
  import opened ModuleHeader

  /** Modules weighted 40% CA, 60% final exam. */
  const SixtyForty: set<string> := {"IT1010", "IT1050", "IT1090", "IT2020", "IT2060", "IT2050"}

  /** Modules weighted 50% CA, 50% final exam. */
  const FiftyFifty: set<string> := {"IT1020", "IT1030", "IT1040", "IT1060", "IT1080", "IT1100", "IT2030", "IT2040"}

  /** The fractions of the total mark carried by the CA and by the final exam. */
  datatype Weights = Weights(ca: real, final: real)

  /** The bounds of the final-exam percentage input field. */
  const MinFinalPercent: int := 10
  const MaxFinalPercent: int := 90

  /** The code is in neither fixed set, so the weighting comes from the user. */
  predicate TakesInput(code: string) {
    code !in SixtyForty && code !in FiftyFifty
  }

  /** Weights that split the whole mark and give each part at least a tenth. */
  predicate Valid(w: Weights) {
    w.ca + w.final == 1.0 && 0.1 <= w.ca <= 0.9 && 0.1 <= w.final <= 0.9
  }

  /**
    The weights of a module. `finalPercent` is the value of the input field,
    which is only shown, and only constrained to its bounds, when the code is
    in neither fixed set.
   */
  function Resolve(code: string, finalPercent: int): (w: Weights)
    requires TakesInput(code) ==> MinFinalPercent <= finalPercent <= MaxFinalPercent
    ensures Valid(w)
    ensures code in SixtyForty ==> w == Weights(0.4, 0.6)
    ensures code in FiftyFifty ==> w == Weights(0.5, 0.5)
    ensures TakesInput(code) ==> w.final * 100.0 == finalPercent as real
  {
    if code in SixtyForty then Weights(0.4, 0.6)
    else if code in FiftyFifty then Weights(0.5, 0.5)
    else
      var final := finalPercent as real / 100.0;
      Weights(1.0 - final, final)
  }

  /** No module code is in both fixed sets, so the order of the two tests does not matter. */
  lemma FixedSetsDisjoint()
    ensures SixtyForty * FiftyFifty == {}
  {
    forall c | c in SixtyForty ensures c !in FiftyFifty {
      assert c in ["IT1010", "IT1050", "IT1090", "IT2020", "IT2060", "IT2050"];
    }
  }

  /** Every code in the fixed sets has the shape the module identification returns. */
  lemma FixedSetsAreModuleCodes()
    ensures forall c :: c in SixtyForty + FiftyFifty ==> IsModuleCode(c)
  {
    SixtyFortyCodes();
    FiftyFiftyCodes();
  }

  lemma SixtyFortyCodes()
    ensures forall c :: c in SixtyForty ==> IsModuleCode(c)
  {
    forall c | c in SixtyForty ensures IsModuleCode(c) {
      assert c[2..] in ["1010", "1050", "1090", "2020", "2060", "2050"];
    }
  }

  lemma FiftyFiftyCodes()
    ensures forall c :: c in FiftyFifty ==> IsModuleCode(c)
  {
    forall c | c in FiftyFifty ensures IsModuleCode(c) {
      assert c[2..] in ["1020", "1030", "1040", "1060", "1080", "1100", "2030", "2040"];
    }
  }

  /** Without a recognised module the weighting always comes from the input field. */
  lemma UnknownTakesInput(finalPercent: int)
    requires MinFinalPercent <= finalPercent <= MaxFinalPercent
    ensures TakesInput(Unknown)
    ensures Resolve(Unknown, finalPercent) == Weights(1.0 - finalPercent as real / 100.0, finalPercent as real / 100.0)
  {
    assert |Unknown| == 7;
  }
}
