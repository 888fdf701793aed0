/** The name patterns of the policy contracts. */
module PolicyNames {
  import opened Text

  predicate IsLower(c: char) { 'a' <= c <= 'z' }
  predicate IsUpper(c: char) { 'A' <= c <= 'Z' }
  predicate IsDecimal(c: char) { '0' <= c <= '9' }

  predicate IsIdentifier(s: string) {
    1 <= |s| <= 64 && IsLower(s[0]) && forall c :: c in s ==> IsLower(c) || IsDecimal(c) || c == '_'
  }

  predicate IsPackageSegment(s: string) {
    && s != "" && !IsDecimal(s[0])
    && forall c :: c in s ==> IsLower(c) || IsUpper(c) || IsDecimal(c) || c == '_'
  }

  predicate IsPackage(s: string) {
    |Split(s, '.')| >= 2 && forall part :: part in Split(s, '.') ==> IsPackageSegment(part)
  }

  predicate IsLabel(s: string) {
    && 1 <= |s| <= 63 && s[0] != '-' && s[|s| - 1] != '-'
    && forall c :: c in s ==> IsLower(c) || IsDecimal(c) || c == '-'
  }

  predicate IsDomain(s: string) {
    var parts := Split(s, '.');
    var last := parts[|parts| - 1];
    && |parts| >= 2 && (forall i :: 0 <= i < |parts| - 1 ==> IsLabel(parts[i]))
    && 2 <= |last| <= 63 && forall c :: c in last ==> IsLower(c)
  }

  predicate IsPolicyCode(s: string) {
    3 <= |s| <= 64 && IsUpper(s[0]) && forall c :: c in s ==> IsUpper(c) || IsDecimal(c) || c == '_'
  }
}
