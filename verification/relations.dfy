/** Properties of the comparison predicates the sorts are run with. */
module Relations {

  /** `le` orders every pair of values and is transitive. */
  ghost predicate TotalPreorder<T(!new)>(le: (T, T) -> bool) {
    Total(le) && Transitive(le)
  }

  /** `le` orders every pair of values one way or the other. */
  ghost predicate Total<T(!new)>(le: (T, T) -> bool) {
    forall x, y :: le(x, y) || le(y, x)
  }

  /** `le` chains: x before y before z puts x before z. */
  ghost predicate Transitive<T(!new)>(le: (T, T) -> bool) {
    forall x, y, z {:trigger le(x, y), le(y, z)} :: le(x, y) && le(y, z) ==> le(x, z)
  }

  /** `f` maps `leA` onto `leB`: two values are in order exactly when their
      images are. */
  ghost predicate Preserves<A(!new), B>(f: A -> B, leA: (A, A) -> bool, leB: (B, B) -> bool) {
    forall a, b {:trigger leA(a, b)} {:trigger leB(f(a), f(b))} :: leA(a, b) == leB(f(a), f(b))
  }
}
