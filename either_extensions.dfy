/** EitherExtensions.Match: case analysis on an Either. */
module EitherExtensions {
  import opened EitherType

  /**
   * The matcher for the held side applied to the held value. Only the getter
   * of the side the tag names is read, so neither getter's exception can be
   * raised: the body needs no precondition.
   */
  function Match<L, R, T>(either: Either<L, R>, leftMatcher: L -> T, rightMatcher: R -> T): (r: T)
    ensures IsLeft(either) ==> r == leftMatcher(either.left)
    ensures !IsLeft(either) ==> r == rightMatcher(either.right)
  {
    if IsLeft(either) then leftMatcher(GetLeft(either)) else rightMatcher(GetRight(either))
  }

  /** Matching with the two constructors rebuilds the value. */
  lemma MatchConstructorsRebuilds<L, R>(either: Either<L, R>)
    ensures Match(either, (l: L) => FromLeft<L, R>(l), (r: R) => FromRight<L, R>(r)) == either
  {
  }
}
