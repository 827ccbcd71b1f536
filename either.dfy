/**
 * Either<TLeft, TRight>: a value that holds either a left or a right value.
 * The struct's tag (`isLeft`) and its overlapping storage become the two
 * constructors of a datatype; the property setters become functions that
 * return the updated value.
 */
module EitherType {

  datatype Either<L, R> = Left(left: L) | Right(right: R)

  /** new Either(left). */
  function FromLeft<L, R>(left: L): (e: Either<L, R>)
    ensures IsLeft(e) && GetLeft(e) == left
  {
    Left(left)
  }

  /** new Either(right). */
  function FromRight<L, R>(right: R): (e: Either<L, R>)
    ensures !IsLeft(e) && GetRight(e) == right
  {
    Right(right)
  }

  /** The IsLeft property: the tag, true exactly when the value does not hold a right value. */
  predicate IsLeft<L, R>(e: Either<L, R>): (isLeft: bool)
    ensures isLeft <==> !e.Right?
  {
    e.Left?
  }

  /** The Left getter; it throws when the value holds Right, so holding Left is required. */
  function GetLeft<L, R>(e: Either<L, R>): (left: L)
    requires IsLeft(e)
    ensures e == Left(left)
  {
    e.left
  }

  /** The Right getter; it throws when the value holds Left, so holding Right is required. */
  function GetRight<L, R>(e: Either<L, R>): (right: R)
    requires !IsLeft(e)
    ensures e == Right(right)
  {
    e.right
  }

  /** The Left setter: stores the value and switches the tag to Left, whatever it was. */
  function SetLeft<L, R>(e: Either<L, R>, value: L): (e': Either<L, R>)
    ensures IsLeft(e') && GetLeft(e') == value
  {
    Left(value)
  }

  /** The Right setter: stores the value and switches the tag to Right, whatever it was. */
  function SetRight<L, R>(e: Either<L, R>, value: R): (e': Either<L, R>)
    ensures !IsLeft(e') && GetRight(e') == value
  {
    Right(value)
  }

  /** The last setter called decides the value: earlier writes leave no trace. */
  lemma LastSetWins<L, R>(e: Either<L, R>, l: L, r: R)
    ensures SetRight(SetLeft(e, l), r) == FromRight(r)
    ensures SetLeft(SetRight(e, r), l) == FromLeft(l)
  {
  }
}
