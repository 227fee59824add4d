/** Waiting for a session to start: requests on the channel are answered one by one until a
    shell or a command is asked for, the channel closes, or time runs out. */
module Start {
  import opened Binary
  import Payload

  datatype Arrival = Request(kind: string, wantsReply: bool, payload: Bytes) | Closed | Deadline

  /** An answer to arrival number `to`. */
  datatype Reply = Reply(to: nat, granted: bool)

  /** What was asked for; the command is empty for a shell. */
  datatype Start = Start(kind: string, command: Bytes, pty: Payload.Pty)

  datatype Outcome = Started(start: Start) | NotStarted

  const NO_PTY := Payload.Pty(false, Payload.DEFAULT_TERM, Payload.DEFAULT_COLS, Payload.DEFAULT_ROWS)

  predicate Ends(a: Arrival) { !a.Request? || a.kind == "shell" || a.kind == "exec" }

  /** Requests that change nothing here but are not refused. */
  predicate Tolerated(kind: string) { kind == "env" || kind == "window-change" || kind == "signal" }

  predicate Granted(a: Arrival) {
    a.Request? && (a.kind == "pty-req" || a.kind == "shell" || a.kind == "exec" || Tolerated(a.kind))
  }

  /** The terminal last asked for among the arrivals, or none. */
  function LastPty(arrivals: seq<Arrival>): Payload.Pty {
    if arrivals == [] then NO_PTY
    else
      var a := arrivals[|arrivals| - 1];
      if a.Request? && a.kind == "pty-req" then Payload.ParsePtyRequest(a.payload)
      else LastPty(arrivals[..|arrivals| - 1])
  }

  predicate WantsReply(a: Arrival) { a.Request? && a.wantsReply }

  /** The answer a request gets, if it wants one. */
  function Answer(arrivals: seq<Arrival>, k: nat): (r: seq<Reply>)
    requires k < |arrivals|
  {
    if WantsReply(arrivals[k]) then [Reply(k, Granted(arrivals[k]))] else []
  }

  function Answers(arrivals: seq<Arrival>, n: nat): seq<Reply>
    requires n <= |arrivals|
  {
    if n == 0 then [] else Answers(arrivals, n - 1) + Answer(arrivals, n - 1)
  }

  predicate Answered(replies: seq<Reply>, k: nat) { exists i :: 0 <= i < |replies| && replies[i].to == k }

  /** The answers are in order, and only unknown requests are refused. */
  lemma {:induction false} AnswersInOrder(arrivals: seq<Arrival>, n: nat)
    requires n <= |arrivals|
    ensures forall i :: 0 <= i < |Answers(arrivals, n)| ==> Answers(arrivals, n)[i].to < n
    ensures forall a <- Answers(arrivals, n) :: a.to < n && a.granted == Granted(arrivals[a.to])
    ensures (forall i, j :: 0 <= i < j < |Answers(arrivals, n)| ==>
      Answers(arrivals, n)[i].to < Answers(arrivals, n)[j].to)
  {
    hide Granted;
    if n > 0 { AnswersInOrder(arrivals, n - 1); }
  }

  /** They go to exactly the requests that want one. */
  lemma {:induction false} AnswersReach(arrivals: seq<Arrival>, n: nat, k: nat)
    requires k < n <= |arrivals|
    ensures Answered(Answers(arrivals, n), k) <==> WantsReply(arrivals[k])
  {
    hide Granted, Answered;
    if k < n - 1 { AnswersReach(arrivals, n - 1, k); } else { AnswersBelow(arrivals, n - 1); }
    OneMore(arrivals, n, k);
  }

  lemma AnswersBelow(arrivals: seq<Arrival>, n: nat)
    requires n <= |arrivals|
    ensures !Answered(Answers(arrivals, n), n)
  {
    AnswersInOrder(arrivals, n);
  }

  lemma OneMore(arrivals: seq<Arrival>, n: nat, k: nat)
    requires 0 < n <= |arrivals|
    ensures (Answered(Answers(arrivals, n), k) <==>
      Answered(Answers(arrivals, n - 1), k) || (k == n - 1 && WantsReply(arrivals[k])))
  {
    var before, rs := Answers(arrivals, n - 1), Answers(arrivals, n);
    assert rs == before + Answer(arrivals, n - 1);
    hide Answers, Granted;
    if Answered(before, k) {
      var i :| 0 <= i < |before| && before[i].to == k;
      assert rs[i].to == k;
    }
    assert WantsReply(arrivals[n - 1]) ==> rs[|before|].to == n - 1;
  }

  /** The first arrival that ends the wait decides; every request up to it that wants an answer
      gets one. `seen` counts what was taken from the channel. */
  method AwaitStart(arrivals: seq<Arrival>) returns (r: Outcome, replies: seq<Reply>, seen: nat)
    requires exists k :: 0 <= k < |arrivals| && Ends(arrivals[k])
    ensures 0 < seen <= |arrivals| && Ends(arrivals[seen - 1])
    ensures forall k :: 0 <= k < seen - 1 ==> !Ends(arrivals[k])
    ensures replies == Answers(arrivals, seen)
    ensures (r == match arrivals[seen - 1]
      case Request(kind, _, payload) =>
        var command := if kind == "exec" then Payload.ParseExecRequest(payload) else [];
        Started(Start(kind, command, LastPty(arrivals[..seen - 1])))
      case _ => NotStarted)
  {
    hide Tolerated;
    var pty := NO_PTY;
    replies, seen := [], 0;
    while true
      invariant seen < |arrivals|
      invariant forall k :: 0 <= k < seen ==> !Ends(arrivals[k])
      invariant replies == Answers(arrivals, seen)
      invariant pty == LastPty(arrivals[..seen])
      decreases |arrivals| - seen
    {
      var a := arrivals[seen];
      assert arrivals[..seen + 1][..seen] == arrivals[..seen];
      match a {
        case Closed =>
          seen := seen + 1;
          return NotStarted, replies, seen;
        case Deadline =>
          seen := seen + 1;
          return NotStarted, replies, seen;
        case Request(kind, wantsReply, payload) =>
          var granted := true;
          if kind == "pty-req" {
            pty := Payload.ParsePtyRequest(payload);
          } else if kind != "shell" && kind != "exec" {
            granted := Tolerated(kind);
          }
          if wantsReply {
            replies := replies + [Reply(seen, granted)];
          }
          seen := seen + 1;
          if kind == "shell" {
            return Started(Start("shell", [], pty)), replies, seen;
          } else if kind == "exec" {
            return Started(Start("exec", Payload.ParseExecRequest(payload), pty)), replies, seen;
          }
      }
    }
  }
}
