/** Defaults that every way of submitting a problem shares. */
module PackageFields {
  function DefaultPositive(value: int, fallback: int): int {
    if value < 1 then fallback else value
  }

  function NormalizeProblemType(value: string): string {
    if value == "special_judge" || value == "interactive" then value else "traditional"
  }
}
