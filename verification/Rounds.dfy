/** Progress inside an arbitrary run: a timeout, its burst reaching the server in order and
    the last acknowledgement coming back free the burst, whatever else happens in between. */
module Rounds {
  import opened Segment
  import opened SendBuffer
  import opened Stream
  import opened Session
  import opened SessionTheorems
  import opened Progress
  import Client
  import Server

  /** At moment t, m reaches the server and there is room for it. */
  ghost predicate Lands(run: seq<Session>, t: nat, m: Segment) {
    && t + 1 < |run| && Enabled(run[t], ToServer(m)) && run[t + 1] == Apply(run[t], ToServer(m))
    && |run[t].sv.recvd| + |m.data| < RECEIVE_BUF_SIZE
  }

  /** A round of a run: the timer fires at moment start, segment k of its burst lands at
      moment times[k], and what the server answers to the last is back at moment end. */
  datatype Moments = Moments(start: nat, times: seq<nat>, end: nat)

  ghost predicate InRun(run: seq<Session>, r: Moments) {
    && r.start < |run| - 1 && r.end < |run| - 1
    && run[r.start].cl.state.CONNECTED? && run[r.end + 1].cl.state.CONNECTED?
    && Enabled(run[r.start], TimerFires) && run[r.start + 1] == Apply(run[r.start], TimerFires)
    && 0 < |r.times| == Burst(run[r.start])
    && (forall k :: 0 <= k < |r.times| ==> r.start < r.times[k] < r.end)
    && (forall j, k :: 0 <= j < k < |r.times| ==> r.times[j] < r.times[k])
  }

  /** Segment k of the burst. */
  ghost predicate Piecewise(run: seq<Session>, r: Moments, k: nat)
    requires InRun(run, r) && k < |r.times|
  {
    var s := run[r.start];
    && s.base + k < |s.queued| && s.queued[s.base + k].data != []
    && Lands(run, r.times[k], Piece(s, s.base + k))
  }

  /** What the server answered to the last segment of the burst. */
  ghost function Answer(run: seq<Session>, r: Moments): Segment
    requires InRun(run, r)
  {
    AckOf(run[r.times[|r.times| - 1] + 1])
  }

  ghost predicate RoundIn(run: seq<Session>, r: Moments) {
    && InRun(run, r)
    && (forall k :: 0 <= k < |r.times| ==> Piecewise(run, r, k))
    && Enabled(run[r.end], ToClient(Answer(run, r)))
    && run[r.end + 1] == Apply(run[r.end], ToClient(Answer(run, r)))
  }

  // ---------------------------------------------------------------- any stretch of a run

  /** What grows while the connection lasts. */
  ghost predicate Grows(s: Session, t: Session) {
    && s.cl.me == t.cl.me && s.sv.me == t.sv.me && s.cl.svr == t.cl.svr
    && s.queued <= t.queued && s.base <= t.base && s.sv.expected <= t.sv.expected
  }

  lemma StepGrows(s: Session, e: Event)
    requires Inv(s) && Enabled(s, e) && s.cl.state.CONNECTED? && Apply(s, e).cl.state.CONNECTED?
    ensures Grows(s, Apply(s, e))
  {
    StepMovesOn(s, e);
    match e
    case ToServer(m) => ServerMovesOn(s, m);
    case ToClient(m) =>
    case _ =>
  }

  lemma {:induction false} RunGrows(client: Addr, server: Addr, run: seq<Session>, i: nat, j: nat)
    requires Run(client, server, run) && i <= j < |run|
    requires run[i].cl.state.CONNECTED? && run[j].cl.state.CONNECTED?
    ensures Grows(run[i], run[j])
    decreases j - i
  {
    if i < j {
      ConnectedBetween(client, server, run, i, j - 1, j);
      RunGrows(client, server, run, i, j - 1);
      RunKeeps(client, server, run, j - 1);
      assert StepAt(run, j - 1);
      var e :| Enabled(run[j - 1], e) && run[j] == Apply(run[j - 1], e);
      StepGrows(run[j - 1], e);
    }
  }

  // ---------------------------------------------------------------- one round

  /** A segment that lands where everything before it is held is held itself. */
  lemma LandedIsHeld(s: Session, i: nat)
    requires Inv(s) && s.cl.state.CONNECTED? && i < |s.queued| && Enabled(s, ToServer(Piece(s, i)))
    requires |s.sv.recvd| + |s.queued[i].data| < RECEIVE_BUF_SIZE && Offset(s.queued, i) <= s.sv.expected
    ensures Offset(s.queued, i + 1) <= Apply(s, ToServer(Piece(s, i))).sv.expected
  {
    var m := Piece(s, i);
    assert InPlace(s.queued, i) && WireOk(s, m);
    AcceptMovesOn(s, m);
    TakeAt(s.queued, i);
    if m.seqNum != s.sv.expected {
      MarksSeparate(s.queued, SentCount(s), s.sv.expected, i);
    }
  }

  lemma LandsAndIsHeld(client: Addr, server: Addr, run: seq<Session>, i: nat, t: nat, n: nat)
    requires Run(client, server, run) && i <= t && t + 1 < |run| && n < |run[i].queued|
    requires run[i].cl.state.CONNECTED? && run[t].cl.state.CONNECTED?
    requires Lands(run, t, Piece(run[i], n)) && Offset(run[i].queued, n) <= run[t].sv.expected
    ensures Offset(run[i].queued, n + 1) <= run[t + 1].sv.expected
  {
    RunGrows(client, server, run, i, t);
    RunKeeps(client, server, run, t);
    OffsetOfPrefix(run[i].queued, run[t].queued, n);
    OffsetOfPrefix(run[i].queued, run[t].queued, n + 1);
    assert Piece(run[t], n) == Piece(run[i], n);
    LandedIsHeld(run[t], n);
  }

  lemma HeadIsHeld(client: Addr, server: Addr, run: seq<Session>, i: nat)
    requires Run(client, server, run) && i < |run| && run[i].cl.state.CONNECTED?
    ensures run[i].base <= |run[i].queued| && Offset(run[i].queued, run[i].base) <= run[i].sv.expected
  {
    RunKeeps(client, server, run, i);
  }

  lemma ExpectedGrows(client: Addr, server: Addr, run: seq<Session>, i: nat, j: nat)
    requires Run(client, server, run) && i <= j < |run|
    requires run[i].cl.state.CONNECTED? && run[j].cl.state.CONNECTED?
    ensures run[i].sv.expected <= run[j].sv.expected
  {
    RunGrows(client, server, run, i, j);
  }

  /** After the landing of segment k the server holds the stream up to its end. */
  lemma {:induction false} HeldSoFar(client: Addr, server: Addr, run: seq<Session>, r: Moments, k: nat)
    requires Run(client, server, run) && RoundIn(run, r) && k < |r.times|
    ensures var s := run[r.start];
            s.base + k < |s.queued| && Offset(s.queued, s.base + k + 1) <= run[r.times[k] + 1].sv.expected
    decreases k
  {
    var i, t := r.start, r.times[k];
    var n := run[i].base + k;
    assert Piecewise(run, r, k);
    ConnectedBetween(client, server, run, i, t, r.end + 1);
    if k == 0 {
      HeadIsHeld(client, server, run, i);
      ExpectedGrows(client, server, run, i, t);
    } else {
      HeldSoFar(client, server, run, r, k - 1);
      ConnectedBetween(client, server, run, i, r.times[k - 1] + 1, r.end + 1);
      ExpectedGrows(client, server, run, r.times[k - 1] + 1, t);
    }
    LandsAndIsHeld(client, server, run, i, t, n);
  }

  /** An acknowledgement from beyond some segments, none of them empty, frees them. */
  lemma AckFreesUpTo(s: Session, m: Segment, end: nat)
    requires Inv(s) && Enabled(s, ToClient(m)) && Client.IsAck(s.cl, m)
    requires end <= |s.queued| && Offset(s.queued, end) <= m.seqNum
    requires forall i :: s.base <= i < end ==> s.queued[i].data != []
    ensures end <= Apply(s, ToClient(m)).base
  {
    if s.base < end {
      AckReaches(s.queued, s.base, end, m.seqNum);
    }
  }

  lemma AckFreesBurstOf(s: Session, e: Session, m: Segment, end: nat)
    requires Grows(s, e) && Inv(e) && Enabled(e, ToClient(m)) && Client.IsAck(e.cl, m)
    requires end <= |s.queued| && Offset(s.queued, end) <= m.seqNum
    requires forall i :: s.base <= i < end ==> s.queued[i].data != []
    ensures end <= Apply(e, ToClient(m)).base
  {
    OffsetOfPrefix(s.queued, e.queued, end);
    AckFreesUpTo(e, m, end);
  }

  lemma NothingEmpty(run: seq<Session>, r: Moments)
    requires RoundIn(run, r)
    ensures var s := run[r.start];
            && s.base + Burst(s) <= |s.queued|
            && forall i :: s.base <= i < s.base + Burst(s) ==> s.queued[i].data != []
  {
    var s := run[r.start];
    assert Piecewise(run, r, |r.times| - 1);
    forall i | s.base <= i < s.base + Burst(s) ensures s.queued[i].data != [] {
      assert Piecewise(run, r, i - s.base);
    }
  }

  lemma AnswerIsBeyond(client: Addr, server: Addr, run: seq<Session>, r: Moments)
    requires Run(client, server, run) && RoundIn(run, r)
    ensures var s := run[r.start];
            s.base + Burst(s) <= |s.queued| && Offset(s.queued, s.base + Burst(s)) <= Answer(run, r).seqNum
  {
    HeldSoFar(client, server, run, r, |r.times| - 1);
  }

  /** What comes back at the end is the connected server's acknowledgement. */
  lemma EndIsAck(client: Addr, server: Addr, run: seq<Session>, r: Moments)
    requires Run(client, server, run) && RoundIn(run, r)
    ensures Inv(run[r.end]) && Grows(run[r.start], run[r.end])
    ensures Enabled(run[r.end], ToClient(Answer(run, r))) && Client.IsAck(run[r.end].cl, Answer(run, r))
    ensures run[r.end + 1] == Apply(run[r.end], ToClient(Answer(run, r)))
  {
    assert r.start < r.times[|r.times| - 1] < r.end;
    ConnectedBetween(client, server, run, r.start, r.end, r.end + 1);
    RunGrows(client, server, run, r.start, r.end);
    RunKeeps(client, server, run, r.times[|r.times| - 1] + 1);
    RunKeeps(client, server, run, r.end);
  }

  lemma EndFrees(client: Addr, server: Addr, run: seq<Session>, r: Moments, end: nat)
    requires Run(client, server, run) && RoundIn(run, r)
    requires end <= |run[r.start].queued| && Offset(run[r.start].queued, end) <= Answer(run, r).seqNum
    requires var s := run[r.start]; forall i :: s.base <= i < end ==> s.queued[i].data != []
    ensures end <= run[r.end + 1].base
  {
    EndIsAck(client, server, run, r);
    AckFreesBurstOf(run[r.start], run[r.end], Answer(run, r), end);
  }

  /** A round in any run frees its whole burst, whatever events fall between its own. */
  lemma RoundAdvances(client: Addr, server: Addr, run: seq<Session>, r: Moments)
    requires Run(client, server, run) && RoundIn(run, r)
    ensures run[r.start].base + Burst(run[r.start]) <= run[r.end + 1].base
  {
    AnswerIsBeyond(client, server, run, r);
    NothingEmpty(run, r);
    EndFrees(client, server, run, r, run[r.start].base + Burst(run[r.start]));
  }

  // ---------------------------------------------------------------- many rounds

  /** Rounds that follow each other, with anything in between. */
  ghost predicate RoundsIn(run: seq<Session>, rounds: seq<Moments>) {
    && (forall j :: 0 <= j < |rounds| ==> RoundIn(run, rounds[j]))
    && (forall j :: 0 < j < |rounds| ==> rounds[j - 1].end < rounds[j].start)
  }

  lemma RoundSpans(client: Addr, server: Addr, run: seq<Session>, r: Moments)
    requires Run(client, server, run) && RoundIn(run, r)
    ensures r.start < r.end < |run| - 1
    ensures run[r.start].cl.state.CONNECTED? && run[r.end + 1].cl.state.CONNECTED?
    ensures run[r.start].base < run[r.end + 1].base
  {
    RoundAdvances(client, server, run, r);
    assert r.start < r.times[0] < r.end;
  }

  lemma {:induction false} EachRoundAdvances(client: Addr, server: Addr, run: seq<Session>,
                                             rounds: seq<Moments>, n: nat)
    requires Run(client, server, run) && RoundsIn(run, rounds) && 0 < n <= |rounds|
    ensures rounds[0].start < |run| && run[rounds[0].start].cl.state.CONNECTED?
    ensures rounds[0].start <= rounds[n - 1].end < |run| - 1 && run[rounds[n - 1].end + 1].cl.state.CONNECTED?
    ensures run[rounds[0].start].base + n <= run[rounds[n - 1].end + 1].base
  {
    RoundSpans(client, server, run, rounds[n - 1]);
    if n > 1 {
      EachRoundAdvances(client, server, run, rounds, n - 1);
      assert rounds[n - 2].end < rounds[n - 1].start;
      BaseGrows(client, server, run, rounds[n - 2].end + 1, rounds[n - 1].start);
    }
  }

  lemma BaseGrows(client: Addr, server: Addr, run: seq<Session>, i: nat, j: nat)
    requires Run(client, server, run) && i <= j < |run|
    requires run[i].cl.state.CONNECTED? && run[j].cl.state.CONNECTED?
    ensures run[i].base <= run[j].base
  {
    RunGrows(client, server, run, i, j);
  }

  lemma FreedIsDelivered(s: Session, t: Session, n: nat)
    requires Grows(s, t) && Inv(s) && Inv(t) && s.cl.state.CONNECTED? && t.cl.state.CONNECTED?
    requires |s.cl.buf.live| <= n && s.base + n <= t.base
    ensures |s.queued| <= t.base && Bytes(s.queued) <= t.delivered + t.sv.recvd
  {
    PrefixBytes(t.queued, |s.queued|, t.base);
    PrefixBytes(t.queued, |s.queued|, |t.queued|);
    assert t.queued[..|t.queued|] == t.queued && t.queued[..|s.queued|] == s.queued;
  }

  lemma StretchDelivers(client: Addr, server: Addr, run: seq<Session>, i: nat, j: nat, n: nat)
    requires Run(client, server, run) && i <= j < |run|
    requires run[i].cl.state.CONNECTED? && run[j].cl.state.CONNECTED?
    requires |run[i].cl.buf.live| <= n && run[i].base + n <= run[j].base
    ensures |run[i].queued| <= run[j].base && Bytes(run[i].queued) <= run[j].delivered + run[j].sv.recvd
  {
    RunKeeps(client, server, run, i);
    RunKeeps(client, server, run, j);
    RunGrows(client, server, run, i, j);
    FreedIsDelivered(run[i], run[j], n);
  }

  /** As many rounds as segments were buffered at the start, anywhere in a run, and all of
      them are freed; the server holds the whole stream as it was queued then. */
  lemma RoundsDeliver(client: Addr, server: Addr, run: seq<Session>, rounds: seq<Moments>)
    requires Run(client, server, run) && RoundsIn(run, rounds) && rounds != []
    requires rounds[0].start < |run| && |run[rounds[0].start].cl.buf.live| <= |rounds|
    ensures rounds[|rounds| - 1].end < |run| - 1
    ensures var s, t := run[rounds[0].start], run[rounds[|rounds| - 1].end + 1];
            |s.queued| <= t.base && Bytes(s.queued) <= t.delivered + t.sv.recvd
  {
    EachRoundAdvances(client, server, run, rounds, |rounds|);
    StretchDelivers(client, server, run, rounds[0].start, rounds[|rounds| - 1].end + 1, |rounds|);
  }

  // ---------------------------------------------------------------- shutting the window

  /** From any connected state with more buffered than counted, and room at the server,
      some continuation of the run wraps the counter. */
  lemma WindowShuts(client: Addr, server: Addr, run: seq<Session>, reading: bool) returns (more: seq<Session>)
    requires Run(client, server, run) && Able(run[|run| - 1], reading)
    requires var b := run[|run| - 1].cl.buf; b.unAck < |b.live|
    ensures Run(client, server, more) && run <= more
    ensures more[|more| - 1].cl.state.CONNECTED? && more[|more| - 1].wrapped
  {
    more := RunLeads(client, server, run, Round(run[|run| - 1], reading));
  }

  lemma LeadsTo(start: Session, s: Session, e: Event)
    requires Inv(s) && Leads(start, s) && Enabled(s, e)
    ensures Inv(Apply(s, e)) && Leads(start, Apply(s, e))
  {
    StepKeeps(s, e);
    LeadsByEvent(s, e);
    LeadsOn(start, s, Apply(s, e));
  }

  /** The handshake, undisturbed. */
  lemma Opens(client: Addr, server: Addr) returns (s: Session)
    requires client != server
    ensures Leads(Init(client, server), s) && Inv(s)
    ensures s.cl == Client.Tcb(client, server, Client.CONNECTED, Buf([], 0, 0, 0))
    ensures s.sv == Server.Tcb(server, Server.CONNECTED, client, 0, []) && s.accepted && s.answer == None
    ensures s.todo == [] && s.sends == [] && s.queued == [] && s.base == 0 && s.delivered == [] && !s.over
  {
    var start := Init(client, server);
    InitHolds(client, server);
    LeadsSelf(start);
    LeadsTo(start, start, Listen);
    var a := Apply(start, Listen);
    LeadsTo(start, a, Connect);
    var b := Apply(a, Connect);
    LeadsTo(start, b, ToServer(Client.Syn(b.cl)));
    var d := Apply(b, ToServer(Client.Syn(b.cl)));
    var answer := Server.Reply(d.sv, SYNACK, 0);
    LeadsTo(start, d, ToClient(answer));
    s := Apply(d, ToClient(answer));
  }
}
