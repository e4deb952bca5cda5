/** The alignment check on the alternatives `p1 | p2 | …` of a `when` branch
    (`when::alternatives_indented_correctly`). */
module WhenBranches {
  import opened Numeric
  import opened Wrappers
  import opened Regions
  import opened Ast

  function Column(p: Located<Pattern>): u16 {
    p.region.startCol
  }

  /** The first alternative starts at the branch's indentation and no later one starts
      left of it. */
  predicate IndentedCorrectly(patterns: seq<Located<Pattern>>, originalIndent: u16)
    requires patterns != []
  {
    Column(patterns[0]) == originalIndent && forall i | 1 <= i < |patterns| :: Column(patterns[i]) >= originalIndent
  }

  /** `k` is the first alternative after the first that starts left of the indentation. */
  predicate FirstUnderIndented(patterns: seq<Located<Pattern>>, originalIndent: u16, k: int) {
    && 1 <= k < |patterns|
    && Column(patterns[k]) < originalIndent
    && forall j | 1 <= j < k :: Column(patterns[j]) >= originalIndent
  }

  /** `alternatives_indented_correctly`. A misplaced first alternative reports
      `originalIndent - column` in 16-bit arithmetic, which wraps around when that
      alternative lies to the right; otherwise the first later alternative left of the
      indentation reports by how much. */
  method AlternativesIndentedCorrectly(patterns: seq<Located<Pattern>>, originalIndent: u16) returns (r: Result<(), u16>)
    requires patterns != []
    ensures r.Ok? <==> IndentedCorrectly(patterns, originalIndent)
    ensures Column(patterns[0]) != originalIndent ==> r == Err(WrappingSub(originalIndent, Column(patterns[0])))
    ensures Column(patterns[0]) == originalIndent && r.Err? ==>
      exists k :: FirstUnderIndented(patterns, originalIndent, k) &&
                  r.error as int == originalIndent as int - Column(patterns[k]) as int
  {
    var first := patterns[0];
    var rest := patterns[1..];
    if first.region.startCol == originalIndent {
      var i := 0;
      while i < |rest|
        invariant 0 <= i <= |rest|
        invariant forall j | 0 <= j < i :: Column(rest[j]) >= originalIndent
      {
        var whenPattern := rest[i];
        if whenPattern.region.startCol < originalIndent {
          assert FirstUnderIndented(patterns, originalIndent, i + 1) by {
            forall j | 1 <= j < i + 1 ensures Column(patterns[j]) >= originalIndent {
              assert patterns[j] == rest[j - 1];
            }
          }
          return Err(originalIndent - whenPattern.region.startCol);
        }
        i := i + 1;
      }
      forall j | 1 <= j < |patterns| ensures Column(patterns[j]) >= originalIndent {
        assert patterns[j] == rest[j - 1];
      }
      return Ok(());
    } else {
      return Err(WrappingSub(originalIndent, first.region.startCol));
    }
  }

  /** The offender is unique, so the reported distance is determined. */
  lemma FirstUnderIndentedIsUnique(patterns: seq<Located<Pattern>>, originalIndent: u16, k1: int, k2: int)
    requires FirstUnderIndented(patterns, originalIndent, k1) && FirstUnderIndented(patterns, originalIndent, k2)
    ensures k1 == k2
  {
  }

  /** A misalignment is never reported as a distance of zero, not even when the first
      alternative lies to the right and the subtraction wraps around. */
  lemma MisalignmentIsNonZero(patterns: seq<Located<Pattern>>, originalIndent: u16, error: u16)
    requires patterns != []
    requires Column(patterns[0]) != originalIndent ==> error == WrappingSub(originalIndent, Column(patterns[0]))
    requires Column(patterns[0]) == originalIndent ==>
      exists k :: FirstUnderIndented(patterns, originalIndent, k) && error as int == originalIndent as int - Column(patterns[k]) as int
    ensures error != 0
  {
  }
}
