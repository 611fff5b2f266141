/**
 The approval gate: any number of approvers, one waiter and its cancellation, each
 entering the gate's mutex once.  `Gate` is the object itself; `Event` and `Exec` give
 every interleaving of its critical sections.
 */
module ApprovalGate {
  import opened Common

  datatype Decision = Approved | Denied
  datatype Vote = Vote(decision: Decision, decider: string)

  /** `closes` counts closings of the result channel (a second one would panic);
      `accepted` lists the votes acknowledged so far. */
  datatype View = View(
    settled: bool,
    abandoned: bool,
    result: Vote,
    closes: nat,
    accepted: seq<Vote>)

  /** Whether `settle` takes the vote. */
  predicate Takes(v: View, d: Vote) {
    && !v.abandoned
    && (v.settled ==> d.decision.Denied? && v.result.decision.Approved?)
  }

  function Settled(v: View, d: Vote): View {
    if !Takes(v, d) then v
    else View(true, v.abandoned, d, if v.settled then v.closes else v.closes + 1, v.accepted + [d])
  }

  function Abandoned(v: View): View {
    if v.settled then v else v.(abandoned := true)
  }

  function Closed(v: View): View {
    v.(abandoned := true)
  }

  const NO_VOTE := Vote(Denied, "")
  const FRESH := View(false, false, NO_VOTE, 0, [])

  class Gate {
    var settled: bool
    var abandoned: bool
    var result: Vote
    ghost var closes: nat
    ghost var accepted: seq<Vote>

    ghost function Contents(): View
      reads this
    {
      View(settled, abandoned, result, closes, accepted)
    }

    constructor ()
      ensures Contents() == FRESH
    {
      settled, abandoned, result := false, false, NO_VOTE;
      closes, accepted := 0, [];
    }

    method Settle(d: Vote) returns (ok: bool)
      modifies this
      ensures Contents() == Settled(old(Contents()), d)
      ensures ok <==> Takes(old(Contents()), d)
    {
      if abandoned {
        return false;
      }
      if !settled {
        settled := true;
        result := d;
        closes := closes + 1;
        accepted := accepted + [d];
        return true;
      }
      if d.decision == Denied && result.decision == Approved {
        result := d;
        accepted := accepted + [d];
        return true;
      }
      return false;
    }

    method Abandon()
      modifies this
      ensures Contents() == Abandoned(old(Contents()))
    {
      if !settled {
        abandoned := true;
      }
    }

    /** The waiter's critical section once the result channel is closed. */
    method TakeResult() returns (d: Vote)
      requires settled
      modifies this
      ensures Contents() == Closed(old(Contents())) && d == old(result)
    {
      d := result;
      abandoned := true;
    }
  }

  /** One critical section: an approver votes, or Wait leaves through one of its two
      branches. */
  datatype Event = Cast(vote: Vote) | Read | Cancel

  datatype Wait = Waiting | Decided(record: Vote) | Cancelled

  /** The gate, its waiter, and what the waiter left with. */
  datatype World = World(gate: View, wait: Wait)

  const START := World(FRESH, Waiting)

  predicate Enabled(w: World, e: Event) {
    match e
    case Cast(_) => true
    case Read => w.wait.Waiting? && w.gate.settled
    case Cancel => w.wait.Waiting?
  }

  function Apply(w: World, e: Event): World
    requires Enabled(w, e)
  {
    match e
    case Cast(d) => w.(gate := Settled(w.gate, d))
    case Read => World(Closed(w.gate), Decided(w.gate.result))
    case Cancel => World(Abandoned(w.gate), Cancelled)
  }

  /** `es` is a run of the gate. */
  predicate Legal(es: seq<Event>)
    decreases |es|, 0
  {
    es == [] || (Legal(es[..|es| - 1]) && Enabled(Exec(es[..|es| - 1]), es[|es| - 1]))
  }

  function Exec(es: seq<Event>): World
    requires Legal(es)
    decreases |es|, 1
  {
    if es == [] then START else Apply(Exec(es[..|es| - 1]), es[|es| - 1])
  }

  function Votes(es: seq<Event>): seq<Vote> {
    if es == [] then []
    else Votes(es[..|es| - 1]) + (if es[|es| - 1].Cast? then [es[|es| - 1].vote] else [])
  }

  predicate HasDenial(votes: seq<Vote>) {
    exists i :: 0 <= i < |votes| && votes[i].decision.Denied?
  }

  /** Deny-first, stated on the votes alone: the earliest denial, else the first vote. */
  function Verdict(votes: seq<Vote>): Vote
    requires votes != []
  {
    if |votes| == 1 || votes[0].decision.Denied? then votes[0]
    else if HasDenial(votes[1..]) then Verdict(votes[1..])
    else votes[0]
  }

  lemma OneVote(d: Vote)
    ensures HasDenial([d]) <==> d.decision.Denied?
  {
    assert [d][0] == d;
  }

  lemma {:induction false} VerdictSnoc(votes: seq<Vote>, d: Vote)
    requires votes != []
    ensures Verdict(votes + [d]) ==
            if Verdict(votes).decision.Approved? && d.decision.Denied? then d else Verdict(votes)
    ensures Verdict(votes).decision.Denied? <==> HasDenial(votes)
  {
    var all := votes + [d];
    assert all[1..] == votes[1..] + [d];
    if |votes| == 1 {
      assert all[1..] == [d];
      OneVote(d);
      OneVote(votes[0]);
      assert votes == [votes[0]];
    } else {
      VerdictSnoc(votes[1..], d);
      assert HasDenial(all[1..]) <==> HasDenial(votes[1..]) || d.decision.Denied? by {
        assert all[1..][|votes| - 1] == d;
        assert forall i :: 0 <= i < |votes| - 1 ==> all[1..][i] == votes[1..][i];
      }
      assert HasDenial(votes) <==> votes[0].decision.Denied? || HasDenial(votes[1..]) by {
        assert forall i :: 1 <= i < |votes| ==> votes[i] == votes[1..][i - 1];
      }
    }
  }

  /** What every interleaving keeps. */
  ghost predicate Inv(w: World) {
    var g := w.gate;
    && g.closes == (if g.settled then 1 else 0)
    && (!g.settled <==> g.accepted == [])
    && (g.settled ==> g.accepted == [g.result] ||
                      (|g.accepted| == 2 && g.accepted[0].decision.Approved? && g.accepted[1] == g.result &&
                       g.result.decision.Denied?))
    && (w.wait.Waiting? ==> !g.abandoned)
    && (w.wait.Decided? ==> g.abandoned && g.settled && w.wait.record == g.result)
    && (w.wait.Cancelled? ==> (g.abandoned <==> !g.settled))
  }

  lemma {:induction false} InvHolds(es: seq<Event>)
    requires Legal(es)
    ensures Inv(Exec(es))
    decreases |es|
  {
    if es != [] {
      InvHolds(es[..|es| - 1]);
    }
  }

  /** The channel is closed at most once, at most two votes are ever acknowledged, and
      a second one is a denial of the first. */
  lemma AtMostTwoAccepted(es: seq<Event>)
    requires Legal(es)
    ensures var g := Exec(es).gate;
            && g.closes <= 1
            && |g.accepted| <= 2
            && (|g.accepted| == 2 ==> g.accepted[0].decision.Approved? && g.accepted[1].decision.Denied?)
  {
    InvHolds(es);
  }

  /** While the waiter waits, the gate holds the deny-first verdict of all votes so far. */
  lemma {:induction false} GateIsVerdict(es: seq<Event>)
    requires Legal(es) && Exec(es).wait.Waiting?
    ensures Exec(es).gate.settled <==> Votes(es) != []
    ensures Votes(es) != [] ==> Exec(es).gate.result == Verdict(Votes(es))
    decreases |es|
  {
    if es != [] {
      var before := es[..|es| - 1];
      GateIsVerdict(before);
      InvHolds(before);
      var d := es[|es| - 1].vote;
      if Votes(before) != [] {
        VerdictSnoc(Votes(before), d);
      } else {
        assert Votes(es) == [d];
      }
    }
  }

  /** The decision a run acts on is the deny-first verdict of exactly the votes cast
      before the waiter read it, whatever their order of arrival. */
  lemma RecordIsVerdict(es: seq<Event>)
    requires Legal(es + [Read])
    ensures Votes(es) != []
    ensures Exec(es + [Read]).wait == Decided(Verdict(Votes(es)))
    ensures Verdict(Votes(es)).decision.Denied? <==> HasDenial(Votes(es))
  {
    var all := es + [Read];
    assert all[..|all| - 1] == es;
    GateIsVerdict(es);
    VerdictSnoc(Votes(es), NO_VOTE);
  }

  /** After the waiter has left with a decision, or has cancelled an unsettled gate,
      nothing is acknowledged any more and the record never changes. */
  lemma {:induction false} ClosedForGood(es: seq<Event>, later: seq<Event>)
    requires Legal(es) && Legal(es + later)
    requires Exec(es).wait.Decided? || (Exec(es).wait.Cancelled? && !Exec(es).gate.settled)
    ensures Exec(es + later) == Exec(es)
    decreases |later|
  {
    if later == [] {
      assert es + later == es;
    } else {
      var init := later[..|later| - 1];
      assert (es + later)[..|es + later| - 1] == es + init;
      ClosedForGood(es, init);
      InvHolds(es);
    }
  }

  /** If Wait returns through its result branch, at any point of any run, the record is
      Denied exactly when some denial is acknowledged anywhere in the run: an
      acknowledged denial is never dropped by an approved run. */
  lemma {:induction false} AcknowledgedDenialStops(es: seq<Event>)
    requires Legal(es) && Exec(es).wait.Decided?
    ensures Exec(es).wait.record.decision.Denied? <==> HasDenial(Exec(es).gate.accepted)
  {
    InvHolds(es);
    var g := Exec(es).gate;
    assert g.accepted[|g.accepted| - 1] == g.result;
  }

  /** A cancelled waiter can still be followed by one acknowledged vote, exactly when
      the gate it left behind was settled with an approval and the vote is a denial. */
  lemma AcceptedAfterCancel(es: seq<Event>, d: Vote)
    requires Legal(es) && Exec(es).wait.Cancelled?
    ensures Takes(Exec(es).gate, d) <==>
            Exec(es).gate.settled && Exec(es).gate.result.decision.Approved? && d.decision.Denied?
  {
    InvHolds(es);
  }

  // ---- The socket side: how an external vote names its decider -----------------

  const PREFIX := "external:"

  /** The decider recorded for a name received over the socket. */
  function ExternalDecider(name: string): (r: string)
    ensures PREFIX <= r
    ensures name == "" ==> r == "external:unknown"
    ensures name != "" ==> r == (if "external:" <= name then name else "external:" + name)
  {
    var n := if name == "" then "unknown" else name;
    if PREFIX <= n then n else PREFIX + n
  }

  /** How the in-process approver ends: without an error, denied, or with another error. */
  datatype ApproverError = NoError | ErrDenied | OtherError(text: string)

  /** The vote an in-process approver casts: approval needs the absence of any error, and an
      error that is no denial is recorded in place of the decider. */
  function ApproverVote(decider: string, err: ApproverError): (d: Vote)
    ensures d.decision.Approved? <==> err.NoError?
    ensures d.decider == if err.OtherError? then "approver-error:" + err.text else decider
  {
    match err
    case ErrDenied => Vote(Denied, decider)
    case OtherError(text) => Vote(Denied, "approver-error:" + text)
    case NoError => Vote(Approved, decider)
  }

  datatype Message = Ping | Decide(decision: Option<Decision>, decider: string) | Unknown
  datatype Reply = AckOk | Invalid | AlreadyDecided | BadAction

  /** handleConn after a message has been decoded (`None` is an unrecognised decision). */
  method HandleMessage(g: Gate, m: Message) returns (r: Reply)
    modifies g
    ensures m.Ping? ==> r == AckOk
    ensures m.Unknown? ==> r == BadAction
    ensures m.Decide? && m.decision.None? ==> r == Invalid
    ensures m.Decide? && m.decision.Some? ==>
            r == if Takes(old(g.Contents()), Vote(m.decision.value, ExternalDecider(m.decider)))
                 then AckOk else AlreadyDecided
    ensures m.Decide? && r.AckOk? ==> g.result == Vote(m.decision.value, ExternalDecider(m.decider))
    ensures g.Contents() ==
            if m.Decide? && m.decision.Some?
            then Settled(old(g.Contents()), Vote(m.decision.value, ExternalDecider(m.decider)))
            else old(g.Contents())
  {
    match m
    case Ping => r := AckOk;
    case Unknown => r := BadAction;
    case Decide(decision, decider) =>
      if decision.None? {
        return Invalid;
      }
      var ok := g.Settle(Vote(decision.value, ExternalDecider(decider)));
      r := if ok then AckOk else AlreadyDecided;
  }
}
