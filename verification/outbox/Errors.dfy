/** Error chains and the two marks a sender can put on an error (outbox/terminal.go). */
module OutboxErrors {
  import opened Wrappers

  /** `Wrap` is any wrapper with one cause, `Join` any wrapper with several. */
  datatype Error =
    | Plain(text: string)
    | Wrap(err: Error)
    | Join(errs: seq<Error>)
    | TerminalError(err: Error)
    | ConflictError(err: Error)

  /** Marking the absence of an error leaves it absent. */
  function Terminal(err: Option<Error>): Option<Error> {
    match err
    case None => None
    case Some(e) => Some(TerminalError(e))
  }

  function Conflict(err: Option<Error>): Option<Error> {
    match err
    case None => None
    case Some(e) => Some(ConflictError(e))
  }

  predicate IsTerminal(err: Error) {
    match err
    case Plain(_) => false
    case TerminalError(_) => true
    case Wrap(e) => IsTerminal(e)
    case ConflictError(e) => IsTerminal(e)
    case Join(es) => exists k :: 0 <= k < |es| && IsTerminal(es[k])
  }

  predicate IsConflict(err: Error) {
    match err
    case Plain(_) => false
    case ConflictError(_) => true
    case Wrap(e) => IsConflict(e)
    case TerminalError(e) => IsConflict(e)
    case Join(es) => exists k :: 0 <= k < |es| && IsConflict(es[k])
  }

  /** The errors of a chain, the outermost included. */
  ghost predicate InChain(err: Error, inner: Error) {
    || err == inner
    || match err
       case Plain(_) => false
       case Wrap(e) => InChain(e, inner)
       case TerminalError(e) => InChain(e, inner)
       case ConflictError(e) => InChain(e, inner)
       case Join(es) => exists k :: 0 <= k < |es| && InChain(es[k], inner)
  }

  /** Marking adds its own mark, keeps the other one as it was, and loses no error of the chain. */
  lemma MarkingKeepsTheChain(err: Error, inner: Error)
    ensures Terminal(None) == None && Conflict(None) == None
    ensures var marked := Terminal(Some(err)).value;
            IsTerminal(marked) && (IsConflict(marked) <==> IsConflict(err)) && (InChain(err, inner) ==> InChain(marked, inner))
    ensures var marked := Conflict(Some(err)).value;
            IsConflict(marked) && (IsTerminal(marked) <==> IsTerminal(err)) && (InChain(err, inner) ==> InChain(marked, inner))
  {
  }

  /** The search finds a mark exactly when the mark is somewhere in the chain, however deep. */
  lemma {:induction false} MarksAreFound(err: Error)
    ensures IsTerminal(err) <==> exists inner :: InChain(err, inner) && inner.TerminalError?
    ensures IsConflict(err) <==> exists inner :: InChain(err, inner) && inner.ConflictError?
  {
    match err
    case Plain(_) =>
    case Wrap(e) =>
      MarksAreFound(e);
    case TerminalError(e) =>
      MarksAreFound(e);
      assert InChain(err, err);
    case ConflictError(e) =>
      MarksAreFound(e);
      assert InChain(err, err);
    case Join(es) =>
      forall k | 0 <= k < |es|
        ensures IsTerminal(es[k]) <==> exists inner :: InChain(es[k], inner) && inner.TerminalError?
        ensures IsConflict(es[k]) <==> exists inner :: InChain(es[k], inner) && inner.ConflictError?
      {
        MarksAreFound(es[k]);
      }
  }
}
