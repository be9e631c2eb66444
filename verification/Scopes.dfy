/** Scope containment, as every component of the kernel decides it. */
module Scopes {

  predicate StartsWith(s: string, prefix: string) {
    |prefix| <= |s| && s[..|prefix|] == prefix
  }

  /** A wildcard, the same scope, or a parent of it up to a `:` or `/` separator. */
  predicate ScopeContains(granted: string, requested: string) {
    || granted == "*"
    || granted == requested
    || (StartsWith(requested, granted) && |granted| < |requested| && requested[|granted|] in {':', '/'})
  }
}
