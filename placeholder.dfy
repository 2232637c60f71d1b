/** The `{{KEY}}` placeholder convention shared by both template fillers. */
module Placeholder {
  /** `f"{{{{{k}}}}}"`. */
  function Token(k: string): string
  {
    "{{" + k + "}}"
  }

  /** Distinct keys have distinct tokens. */
  lemma TokenInjective(j: string, k: string)
    ensures Token(j) == Token(k) ==> j == k
  {
    if Token(j) == Token(k) {
      assert |j| == |k|;
      assert j == Token(j)[2..|j| + 2];
      assert k == Token(k)[2..|k| + 2];
    }
  }
}
