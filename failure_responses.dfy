/** The account endpoints' conflict replies (api/responses/login.kt) and the reply shape every
    account endpoint shares: a value, or an HTTP error with its message. */
module FailureResponses {
  import opened Wrappers
  import opened Text

  /** An HTTP error response: its status and its body text. */
  datatype Rejection = Rejection(kind: ErrorKind, message: string)

  /** What an endpoint answers: a value, or the error it throws. */
  datatype Reply<+T> = Success(value: T) | Reject(rejection: Rejection) {
    predicate IsFailure() { Reject? }
    function PropagateFailure<U>(): Reply<U>
      requires Reject?
    {
      Reject(rejection)
    }
    function Extract(): T
      requires Success?
    {
      value
    }
  }

  /** `FailureResponses`, in declaration order. */
  datatype FailureResponse = AlreadyLoggedIn | NameInUse | EmailInUse

  /** `values().indexOf(this)`: the constant's position in the declaration. */
  function Ordinal(f: FailureResponse): (n: nat)
    ensures n < 3
  {
    match f
    case AlreadyLoggedIn => 0
    case NameInUse => 1
    case EmailInUse => 2
  }

  /** Ordinals tell the constants apart. */
  lemma OrdinalInjective(f: FailureResponse, g: FailureResponse)
    ensures Ordinal(f) == Ordinal(g) <==> f == g
  {
  }

  /** The body of the response: the ordinal printed as a decimal (`toString()`). */
  function Message(f: FailureResponse): (m: string)
    ensures ParseInt(m) == Some(Ordinal(f))
  {
    ParseIntToString(Ordinal(f));
    IntToString(Ordinal(f))
  }

  /** The three bodies clients see. */
  lemma MessageCodes()
    ensures Message(AlreadyLoggedIn) == "0"
    ensures Message(NameInUse) == "1"
    ensures Message(EmailInUse) == "2"
  {
    assert NatToDigits(0) == "0";
    assert NatToDigits(1) == "1";
    assert NatToDigits(2) == "2";
  }

  /** Distinct constants give distinct bodies, so a client can always tell which check failed. */
  lemma MessagesDistinct(f: FailureResponse, g: FailureResponse)
    requires f != g
    ensures Message(f) != Message(g)
  {
    if Message(f) == Message(g) {
      assert ParseInt(Message(f)) == ParseInt(Message(g));
      OrdinalInjective(f, g);
    }
  }

  /** `throwResponse()`: always a Conflict whose body is the constant's code; it never returns
      normally, so the result is always a rejection. */
  function ThrowResponse(f: FailureResponse): (r: Rejection)
    ensures r.kind == Conflict
    ensures ParseInt(r.message) == Some(Ordinal(f))
  {
    Rejection(Conflict, Message(f))
  }
}
