/**
 * Closed predicates. A large predicate written as `forall x :: Opened(x) ==> body` means `body`, but the
 * verifier does not look inside until some proof asserts `Opened(0)`: callers carry the fact as a whole.
 */
module Guards {

  ghost predicate Opened(x: int) {
    true
  }
}
