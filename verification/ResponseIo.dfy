/**
 The write loops of src/http/response_io.c against an arbitrary kernel: partial writes,
 EAGAIN with a bounded wait, EINTR, errors.

 `kernel(k, room)` is the answer to the k-th system call when `room` bytes are offered, and
 `writable(k)` tells whether the wait after that call ended with the descriptor writable.
 The only thing asked of the kernel is that it does not accept more than it was offered.

 The loops repeat after EINTR without a limit, so they need not end.  Each method therefore
 runs the loop for any number `calls` of system calls and returns None when it is then still
 at work; what it promises holds for every such number.

 What ends a loop, and how, is said in terms of the kernel alone: `Answers` are the answers of
 its first calls when each one offers what is left.
 */
module ResponseIo {
  import opened Common

  const WRITE_RETRY_LIMIT := 5

  datatype Answer = Wrote(n: nat) | WouldBlock | Interrupted | Failed

  type Kernel = (nat, nat) -> Answer

  ghost predicate Honest(kernel: Kernel) {
    forall k, room :: kernel(k, room).Wrote? ==> kernel(k, room).n <= room
  }

  // ----- what the kernel answers ----------------------------------------------------------------

  /** The bytes accepted in all. */
  function Accepted(answers: seq<Answer>): nat {
    if answers == [] then 0
    else
      var last := answers[|answers| - 1];
      Accepted(answers[..|answers| - 1]) + (if last.Wrote? then last.n else 0)
  }

  function Interruptions(answers: seq<Answer>): nat {
    if answers == [] then 0
    else Interruptions(answers[..|answers| - 1]) + (if answers[|answers| - 1].Interrupted? then 1 else 0)
  }

  /** How often the kernel has refused since it last accepted something, interruptions apart. */
  function Refusals(answers: seq<Answer>): nat {
    if answers == [] then 0
    else
      var before := Refusals(answers[..|answers| - 1]);
      match answers[|answers| - 1]
      case WouldBlock => before + 1
      case Interrupted => before
      case _ => 0
  }

  /** The answers of the first `k` calls when `total` bytes are to be sent. */
  ghost function Answers(kernel: Kernel, total: nat, k: nat): (r: seq<Answer>)
    requires Honest(kernel)
    ensures |r| == k && Accepted(r) <= total
  {
    if k == 0 then []
    else
      var before := Answers(kernel, total, k - 1);
      var answer := kernel(k - 1, total - Accepted(before));
      assert (before + [answer])[..k - 1] == before;
      before + [answer]
  }

  /**
   The last answer makes the loop give up: an error, a write of nothing, a refusal with a wait that
   did not end with the descriptor writable, or the seventh refusal in a row.
   */
  ghost predicate GivesUp(answers: seq<Answer>, writable: nat -> bool) {
    answers != [] &&
    match answers[|answers| - 1]
    case Failed => true
    case Wrote(n) => n == 0
    case WouldBlock => !writable(|answers| - 1) || Refusals(answers) >= 7
    case Interrupted => false
  }

  /** Everything has been accepted; `atOnce` tells whether that goes for nothing at all as well. */
  ghost predicate AllSent(answers: seq<Answer>, total: nat, atOnce: bool) {
    Accepted(answers) == total && (total > 0 || atOnce)
  }

  /** After `k` calls the loop goes round again. */
  ghost predicate GoesOn(kernel: Kernel, writable: nat -> bool, total: nat, atOnce: bool, k: nat)
    requires Honest(kernel)
  {
    var answers := Answers(kernel, total, k);
    !GivesUp(answers, writable) && !AllSent(answers, total, atOnce)
  }

  /** The loop goes round again after each number of calls below `made`. */
  ghost predicate GoesOnUntil(kernel: Kernel, writable: nat -> bool, total: nat, atOnce: bool, made: nat)
    requires Honest(kernel)
  {
    forall k: nat :: k < made ==> GoesOn(kernel, writable, total, atOnce, k)
  }

  /** What a loop that may make `calls` calls returns after making `made` of them. */
  ghost predicate Returns(kernel: Kernel, writable: nat -> bool, total: nat, atOnce: bool, calls: nat, made: nat,
                          rc: Option<int>)
    requires Honest(kernel)
  {
    && made <= calls
    && GoesOnUntil(kernel, writable, total, atOnce, made)
    && match rc
       case None => made == calls && GoesOn(kernel, writable, total, atOnce, made)
       case Some(code) =>
         if code == 0 then AllSent(Answers(kernel, total, made), total, atOnce)
         else code == -1 && GivesUp(Answers(kernel, total, made), writable)
  }

  lemma OneMoreAnswer(kernel: Kernel, writable: nat -> bool, total: nat, k: nat)
    requires Honest(kernel)
    ensures var before, after := Answers(kernel, total, k), Answers(kernel, total, k + 1);
      var answer := kernel(k, total - Accepted(before));
      && after == before + [answer] && after[k] == answer
      && Accepted(after) == Accepted(before) + (if answer.Wrote? then answer.n else 0)
      && Interruptions(after) == Interruptions(before) + (if answer.Interrupted? then 1 else 0)
      && Refusals(after)
         == (match answer case WouldBlock => Refusals(before) + 1 case Interrupted => Refusals(before) case _ => 0)
      && (GivesUp(after, writable) <==>
            || answer.Failed?
            || answer == Wrote(0)
            || (answer.WouldBlock? && (!writable(k) || Refusals(before) + 1 >= 7)))
  {
    var before, after := Answers(kernel, total, k), Answers(kernel, total, k + 1);
    assert after[..k] == before;
  }

  /** The calls are paid for by interruptions, seven times the bytes accepted, and refusals. */
  ghost predicate PaidFor(answers: seq<Answer>) {
    && |answers| <= Interruptions(answers) + 7 * Accepted(answers) + Refusals(answers)
    && Refusals(answers) < 7
  }

  lemma OneMorePaidFor(kernel: Kernel, writable: nat -> bool, total: nat, k: nat)
    requires Honest(kernel) && PaidFor(Answers(kernel, total, k))
    requires !GivesUp(Answers(kernel, total, k + 1), writable)
    ensures PaidFor(Answers(kernel, total, k + 1))
  {
    OneMoreAnswer(kernel, writable, total, k);
    hide Answers, Accepted, Refusals, Interruptions, GivesUp;
    match kernel(k, total - Accepted(Answers(kernel, total, k)))
    case Wrote(n) => assert n >= 1;
    case WouldBlock =>
    case Interrupted =>
    case Failed =>
  }

  /** While the loop goes on, all but seven calls per byte have been interrupted. */
  lemma {:induction false} MostlyInterrupted(kernel: Kernel, writable: nat -> bool, total: nat, atOnce: bool, k: nat)
    requires Honest(kernel) && GoesOnUntil(kernel, writable, total, atOnce, k + 1)
    ensures PaidFor(Answers(kernel, total, k))
  {
    assert GoesOn(kernel, writable, total, atOnce, k);
    if k > 0 {
      MostlyInterrupted(kernel, writable, total, atOnce, k - 1);
      hide GivesUp, PaidFor, Answers;
      OneMorePaidFor(kernel, writable, total, k - 1);
    }
  }

  /**
   Success unless the kernel gives reason to give up: with something to send, or nothing that counts
   as sent at once, a loop that may make seven calls per byte besides the interrupted ones, and is
   given no reason to give up, returns 0.
   */
  lemma SucceedsUnlessGivenUp(kernel: Kernel, writable: nat -> bool, total: nat, atOnce: bool, calls: nat, made: nat,
                              rc: Option<int>)
    requires Honest(kernel) && Returns(kernel, writable, total, atOnce, calls, made, rc) && (total > 0 || atOnce)
    requires forall k: nat :: k <= calls ==> !GivesUp(Answers(kernel, total, k), writable)
    requires calls >= Interruptions(Answers(kernel, total, calls)) + 7 * total
    ensures rc == Some(0)
  {
    if rc.None? {
      hide Answers, Accepted, Refusals, Interruptions;
      MostlyInterrupted(kernel, writable, total, atOnce, calls);
    }
  }

  /**
   http_response_write_all.  The loop goes on until everything is accepted, and returns 0 then, or
   until the kernel gives it reason to give up, and returns -1 then; the bytes accepted are the
   first bytes of the buffer, as many as the kernel has counted.
   */
  method WriteAll(data: seq<Byte>, kernel: Kernel, writable: nat -> bool, calls: nat)
    returns (rc: Option<int>, sent: seq<Byte>, made: nat)
    requires Honest(kernel)
    ensures Returns(kernel, writable, |data|, true, calls, made, rc)
    ensures sent == data[..Accepted(Answers(kernel, |data|, made))]
    ensures rc == Some(0) ==> sent == data
  {
    hide Answers, Accepted, Refusals, Interruptions, GivesUp;
    sent, made := [], 0;
    var retries := 0;
    NothingAnswered(kernel, writable, |data|);
    while |sent| < |data| && made < calls
      invariant 0 <= made <= calls && sent <= data && |sent| == Accepted(Answers(kernel, |data|, made))
      invariant 0 <= retries == Refusals(Answers(kernel, |data|, made)) <= WRITE_RETRY_LIMIT + 1
      invariant !GivesUp(Answers(kernel, |data|, made), writable)
      invariant GoesOnUntil(kernel, writable, |data|, true, made)
      decreases calls - made
    {
      OneMoreAnswer(kernel, writable, |data|, made);
      assert GoesOn(kernel, writable, |data|, true, made);
      var answer := kernel(made, |data| - |sent|);
      made := made + 1;
      match answer {
        case Interrupted =>
        case Failed => return Some(-1), sent, made;
        case WouldBlock =>
          retries := retries + 1;
          if retries - 1 > WRITE_RETRY_LIMIT { return Some(-1), sent, made; }
          if !writable(made - 1) { return Some(-1), sent, made; }
        case Wrote(n) =>
          if n == 0 { return Some(-1), sent, made; }
          sent := data[..|sent| + n];
          retries := 0;
      }
    }
    rc := if |sent| < |data| then None else Some(0);
  }

  lemma GoneOn(kernel: Kernel, writable: nat -> bool, total: nat, atOnce: bool, k: nat)
    requires Honest(kernel) && (k > 0 ==> GoesOnUntil(kernel, writable, total, atOnce, k))
    ensures GoesOnUntil(kernel, writable, total, atOnce, k)
    ensures !GivesUp(Answers(kernel, total, k), writable) && !AllSent(Answers(kernel, total, k), total, atOnce) ==>
      GoesOn(kernel, writable, total, atOnce, k) && GoesOnUntil(kernel, writable, total, atOnce, k + 1)
  {
  }

  lemma NothingAnswered(kernel: Kernel, writable: nat -> bool, total: nat)
    requires Honest(kernel)
    ensures var none := Answers(kernel, total, 0);
      none == [] && Accepted(none) == 0 && Refusals(none) == 0 && !GivesUp(none, writable)
  {
  }

  // ----- scatter writes -----------------------------------------------------------------------

  function Flat(iov: seq<seq<Byte>>): seq<Byte> {
    if iov == [] then [] else iov[0] + Flat(iov[1..])
  }

  /** What is left after `n` bytes when they cover the first buffer. */
  lemma FlatSkip(iov: seq<seq<Byte>>, n: nat)
    requires iov != [] && |iov[0]| <= n <= |Flat(iov)|
    ensures n - |iov[0]| <= |Flat(iov[1..])| && Flat(iov)[n..] == Flat(iov[1..])[n - |iov[0]|..]
  {
  }

  /** What is left after `n` bytes when they end inside the first buffer. */
  lemma FlatTrim(iov: seq<seq<Byte>>, n: nat)
    requires iov != [] && n < |iov[0]|
    ensures Flat(iov[0 := iov[0][n..]]) == Flat(iov)[n..]
  {
    assert iov[0 := iov[0][n..]][1..] == iov[1..];
  }

  /** The bookkeeping after a partial write: whole buffers are skipped, the next one is trimmed. */
  method Advance(iov: array<seq<Byte>>, start: nat, accepted: nat) returns (idx: nat)
    requires start < iov.Length && 0 < accepted <= |Flat(iov[start..])|
    modifies iov
    ensures start <= idx <= iov.Length
    ensures Flat(iov[idx..]) == old(Flat(iov[start..]))[accepted..]
    ensures idx < iov.Length ==> iov[idx] != []
  {
    idx := start;
    var left := accepted;
    ghost var rest := Flat(iov[start..])[accepted..];
    while idx < iov.Length && left >= |iov[idx]|
      invariant start <= idx <= iov.Length
      invariant iov[..] == old(iov[..])
      invariant 0 <= left <= |Flat(iov[idx..])| && Flat(iov[idx..])[left..] == rest
    {
      FlatSkip(iov[idx..], left);
      assert iov[idx..][1..] == iov[idx + 1..];
      left := left - |iov[idx]|;
      idx := idx + 1;
    }
    if idx < iov.Length {
      FlatTrim(iov[idx..], left);
      ghost var before := iov[idx..];
      if left > 0 { iov[idx] := iov[idx][left..]; }
      assert iov[idx..] == before[0 := before[0][left..]];
    }
  }

  /**
   http_response_writev_all.  The same loop over several buffers: what the kernel accepted is the
   first bytes of the buffers in order, as many as it has counted.  An array of nothing but empty
   buffers is not counted as sent, and ends as the kernel's answer to an empty write says.
   */
  method WritevAll(iov: array<seq<Byte>>, kernel: Kernel, writable: nat -> bool, calls: nat)
    returns (rc: Option<int>, sent: seq<Byte>, made: nat)
    requires Honest(kernel)
    modifies iov
    ensures var total := old(Flat(iov[..]));
      && Returns(kernel, writable, |total|, iov.Length == 0, calls, made, rc)
      && sent == total[..Accepted(Answers(kernel, |total|, made))]
      && (rc == Some(0) ==> sent == total)
  {
    hide Flat, Answers, Accepted, Refusals, Interruptions, GivesUp, GoesOn, GoesOnUntil, Returns, AllSent;
    ghost var total, atOnce := Flat(iov[..]), iov.Length == 0;
    sent, made := [], 0;
    var idx, retries := 0, 0;
    assert iov[0..] == iov[..];
    NothingAnswered(kernel, writable, |total|);
    GoneOn(kernel, writable, |total|, atOnce, 0);
    if iov.Length == 0 { FlatNothing(iov[..]); }
    while idx < iov.Length && made < calls
      invariant 0 <= idx <= iov.Length && 0 <= made <= calls && |sent| <= |total|
      invariant sent == total[..|sent|] && Flat(iov[idx..]) == total[|sent|..]
      invariant idx < iov.Length && total != [] ==> |sent| < |total|
      invariant idx > 0 ==> total != []
      invariant |sent| == Accepted(Answers(kernel, |total|, made))
      invariant 0 <= retries == Refusals(Answers(kernel, |total|, made)) <= WRITE_RETRY_LIMIT + 1
      invariant !GivesUp(Answers(kernel, |total|, made), writable)
      invariant GoesOnUntil(kernel, writable, |total|, atOnce, made)
      decreases calls - made
    {
      OneMoreAnswer(kernel, writable, |total|, made);
      NotAllSent(kernel, |total|, atOnce, made);
      GoneOn(kernel, writable, |total|, atOnce, made);
      var offered := Flat(iov[idx..]);
      var answer := kernel(made, |offered|);
      made := made + 1;
      Ends(kernel, writable, |total|, atOnce, calls, made);
      match answer {
        case Interrupted =>
        case Failed => return Some(-1), sent, made;
        case WouldBlock =>
          retries := retries + 1;
          if retries - 1 > WRITE_RETRY_LIMIT { return Some(-1), sent, made; }
          if !writable(made - 1) { return Some(-1), sent, made; }
        case Wrote(n) =>
          if n == 0 { return Some(-1), sent, made; }
          retries := 0;
          Moves(total, |sent|, n);
          sent := sent + offered[..n];
          idx := Advance(iov, idx, n);
          if idx < iov.Length { FlatNonempty(iov[idx..]); }
      }
    }
    if idx < iov.Length {
      NotAllSent(kernel, |total|, atOnce, made);
      GoneOn(kernel, writable, |total|, atOnce, made);
      Ends(kernel, writable, |total|, atOnce, calls, made);
      return None, sent, made;
    }
    FlatNothing(iov[idx..]);
    Ends(kernel, writable, |total|, atOnce, calls, made);
    rc := Some(0);
  }

  lemma Moves(total: seq<Byte>, k: nat, n: nat)
    requires k + n <= |total|
    ensures total[..k] + total[k..][..n] == total[..k + n] && total[k..][n..] == total[k + n..]
  {
  }

  lemma NotAllSent(kernel: Kernel, total: nat, atOnce: bool, made: nat)
    requires Honest(kernel)
    ensures Accepted(Answers(kernel, total, made)) < total || (total == 0 && !atOnce) ==>
      !AllSent(Answers(kernel, total, made), total, atOnce)
  {
  }

  /** The three ways a loop that has gone on so far can return. */
  lemma Ends(kernel: Kernel, writable: nat -> bool, total: nat, atOnce: bool, calls: nat, made: nat)
    requires Honest(kernel) && made <= calls && GoesOnUntil(kernel, writable, total, atOnce, made)
    ensures GivesUp(Answers(kernel, total, made), writable) ==>
      Returns(kernel, writable, total, atOnce, calls, made, Some(-1))
    ensures Accepted(Answers(kernel, total, made)) == total && (total > 0 || atOnce) ==>
      Returns(kernel, writable, total, atOnce, calls, made, Some(0))
    ensures made == calls && GoesOn(kernel, writable, total, atOnce, made) ==>
      Returns(kernel, writable, total, atOnce, calls, made, None)
  {
  }

  lemma FlatNothing(iov: seq<seq<Byte>>)
    requires iov == []
    ensures Flat(iov) == []
  {
  }

  lemma FlatNonempty(iov: seq<seq<Byte>>)
    requires iov != [] && iov[0] != []
    ensures Flat(iov) != []
  {
  }
}
