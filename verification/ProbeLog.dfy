/** The probe log as a function of the history of received frames, and what a Query reports of it. */
module ProbeLog {
  import opened Protocol
  import opened Wire
  import opened ResponderSpec
  import opened ResponderProperties
  import opened Machine
  import opened Frames

  /** A Probe or Train addressed to the station. */
  predicate IsProbe(x: Input) {
    && x.frame.header.tos == TOS_DISCOVERY
    && (x.frame.header.opcode == OPCODE_PROBE || x.frame.header.opcode == OPCODE_TRAIN)
    && x.frame.header.realDest == x.env.station.mac
  }

  predicate Clears(x: Input) { IsQuery(x.frame) || IsTopologyReset(x.frame) }

  predicate NoClearIn(ins: seq<Input>, from: nat, to: nat) {
    forall k | from <= k < to && k < |ins| :: !Clears(ins[k])
  }

  /** Input i is the first report of its origin since the log was last cleared. */
  ghost predicate FirstSeen(ins: seq<Input>, i: nat) {
    && i < |ins|
    && IsProbe(ins[i])
    && NoClearIn(ins, i, |ins|)
    && forall j | 0 <= j < i && IsProbe(ins[j]) && SameOrigin(DescOf(ins[i].frame), DescOf(ins[j].frame)) ::
         !NoClearIn(ins, j, i)
  }

  ghost function ReportOf(ins: seq<Input>, i: nat): seq<ProbeDesc>
    requires i < |ins|
  {
    if FirstSeen(ins, i) then [DescOf(ins[i].frame)] else []
  }

  /** The first reports among the first n inputs, newest first. */
  ghost function Newest(ins: seq<Input>, n: nat): seq<ProbeDesc>
    requires n <= |ins|
  {
    if n == 0 then []
    else ReportOf(ins, n - 1) + Newest(ins, n - 1)
  }

  lemma StepLog(st: Iface, x: Input)
    ensures Respond(st, x).0.log
         == if Clears(x) then []
            else if IsProbe(x) && !Seen(st.log, DescOf(x.frame)) then [DescOf(x.frame)] + st.log
            else st.log
  {
  }

  lemma {:induction false} NothingAfterClear(ins: seq<Input>, x: Input, n: nat)
    requires Clears(x) && n <= |ins| + 1
    ensures Newest(ins + [x], n) == []
  {
    if n > 0 {
      NothingAfterClear(ins, x, n - 1);
      assert (ins + [x])[|ins|] == x;
      assert !NoClearIn(ins + [x], n - 1, |ins| + 1);
    }
  }

  lemma ReportExtends(ins: seq<Input>, x: Input, i: nat)
    requires !Clears(x) && i < |ins|
    ensures ReportOf(ins + [x], i) == ReportOf(ins, i)
  {
    var all := ins + [x];
    assert forall k | 0 <= k < |ins| :: all[k] == ins[k];
    assert all[|ins|] == x;
    assert NoClearIn(all, i, |all|) <==> NoClearIn(ins, i, |ins|);
    assert forall j | 0 <= j < i :: NoClearIn(all, j, i) <==> NoClearIn(ins, j, i);
  }

  lemma {:induction false} NewestExtends(ins: seq<Input>, x: Input, n: nat)
    requires !Clears(x) && n <= |ins|
    ensures Newest(ins + [x], n) == Newest(ins, n)
  {
    if n > 0 {
      NewestExtends(ins, x, n - 1);
      ReportExtends(ins, x, n - 1);
      assert Newest(ins + [x], n) == ReportOf(ins + [x], n - 1) + Newest(ins + [x], n - 1);
    }
  }

  /** An origin reported since the last clearing has a first report. */
  lemma {:induction false} OriginHasFirst(ins: seq<Input>, j: nat, d: ProbeDesc) returns (i: nat)
    requires j < |ins| && IsProbe(ins[j]) && SameOrigin(d, DescOf(ins[j].frame)) && NoClearIn(ins, j, |ins|)
    ensures FirstSeen(ins, i) && SameOrigin(d, DescOf(ins[i].frame))
    decreases j
  {
    if FirstSeen(ins, j) {
      i := j;
    } else {
      var k :| 0 <= k < j && IsProbe(ins[k]) && SameOrigin(DescOf(ins[j].frame), DescOf(ins[k].frame))
            && NoClearIn(ins, k, j);
      i := OriginHasFirst(ins, k, d);
    }
  }

  lemma SeenCons(h: ProbeDesc, rest: seq<ProbeDesc>, d: ProbeDesc)
    ensures Seen([h] + rest, d) <==> SameOrigin(d, h) || Seen(rest, d)
  {
    var all := [h] + rest;
    assert all[0] == h && forall k | 0 <= k < |rest| :: all[k + 1] == rest[k];
  }

  lemma {:induction false} SeenInNewest(ins: seq<Input>, n: nat, d: ProbeDesc)
    requires n <= |ins|
    ensures Seen(Newest(ins, n), d) <==> exists i :: 0 <= i < n && FirstSeen(ins, i) && SameOrigin(d, DescOf(ins[i].frame))
  {
    if n > 0 {
      SeenInNewest(ins, n - 1, d);
      if FirstSeen(ins, n - 1) {
        SeenCons(DescOf(ins[n - 1].frame), Newest(ins, n - 1), d);
      } else {
        assert Newest(ins, n) == Newest(ins, n - 1);
      }
    }
  }

  /** A new probe that is no first report repeats an earlier one. */
  lemma RepeatOf(ins: seq<Input>, x: Input) returns (j: nat)
    requires IsProbe(x) && !FirstSeen(ins + [x], |ins|)
    ensures j < |ins| && IsProbe(ins[j]) && SameOrigin(DescOf(x.frame), DescOf(ins[j].frame)) && NoClearIn(ins, j, |ins|)
  {
    var all := ins + [x];
    assert all[|ins|] == x && forall k | 0 <= k < |ins| :: all[k] == ins[k];
    assert NoClearIn(all, |ins|, |all|);
    j :| 0 <= j < |ins| && IsProbe(all[j]) && SameOrigin(DescOf(x.frame), DescOf(all[j].frame)) && NoClearIn(all, j, |ins|);
    assert all[j] == ins[j] && forall k | j <= k < |ins| :: !Clears(all[k]);
  }

  lemma RepeatIsSeen(ins: seq<Input>, x: Input)
    requires IsProbe(x) && !FirstSeen(ins + [x], |ins|)
    ensures Seen(Newest(ins, |ins|), DescOf(x.frame))
  {
    var j := RepeatOf(ins, x);
    var i := OriginHasFirst(ins, j, DescOf(x.frame));
    SeenInNewest(ins, |ins|, DescOf(x.frame));
  }

  /** A new probe whose origin is in the log is no first report. */
  lemma SeenIsRepeat(ins: seq<Input>, x: Input)
    requires IsProbe(x) && Seen(Newest(ins, |ins|), DescOf(x.frame))
    ensures !FirstSeen(ins + [x], |ins|)
  {
    var all, d := ins + [x], DescOf(x.frame);
    assert all[|ins|] == x && forall k | 0 <= k < |ins| :: all[k] == ins[k];
    SeenInNewest(ins, |ins|, d);
    var i :| 0 <= i < |ins| && FirstSeen(ins, i) && SameOrigin(d, DescOf(ins[i].frame));
    assert IsProbe(all[i]) && NoClearIn(all, i, |ins|);
  }

  /** A new probe is a first report exactly when its origin is not in the log. */
  lemma NewProbe(ins: seq<Input>, x: Input)
    requires IsProbe(x)
    ensures FirstSeen(ins + [x], |ins|) <==> !Seen(Newest(ins, |ins|), DescOf(x.frame))
  {
    if FirstSeen(ins + [x], |ins|) {
      if Seen(Newest(ins, |ins|), DescOf(x.frame)) { SeenIsRepeat(ins, x); }
    } else {
      RepeatIsSeen(ins, x);
    }
  }

  /** The log is, newest first, the first report of each origin since the last Query or topology Reset. */
  lemma {:induction false} LogIsFirstReports(ins: seq<Input>)
    ensures Run(Respond, FRESH, ins).log == Newest(ins, |ins|)
  {
    if ins != [] {
      var c, x := ins[..|ins| - 1], ins[|ins| - 1];
      assert ins == c + [x];
      LogIsFirstReports(c);
      RunSnoc(Respond, FRESH, c, x);
      StepLog(Run(Respond, FRESH, c), x);
      if Clears(x) {
        NothingAfterClear(c, x, |ins|);
      } else {
        NewestExtends(c, x, |c|);
        if IsProbe(x) {
          NewProbe(c, x);
        }
      }
    }
  }

  /** No origin is logged twice. */
  lemma {:induction false} LogHasUniqueOrigins(ins: seq<Input>)
    ensures var log := Run(Respond, FRESH, ins).log; forall i, j | 0 <= i < j < |log| :: !SameOrigin(log[i], log[j])
  {
    if ins != [] {
      var c, x := ins[..|ins| - 1], ins[|ins| - 1];
      assert ins == c + [x];
      LogHasUniqueOrigins(c);
      RunSnoc(Respond, FRESH, c, x);
      StepLog(Run(Respond, FRESH, c), x);
    }
  }

  /** A Query after any history is answered by one frame that decodes to the newest first reports. */
  lemma QueryReportsHistory(ins: seq<Input>, q: Input)
    requires IsQuery(q.frame)
    ensures var out := Respond(Run(Respond, FRESH, ins), q).1;
            && |out| == 1
            && out[0].header.opcode == OPCODE_QUERY_RESP
            && var r := Encode(out[0]);
               var n := U16At(r, HEADER_LENGTH);
               && n <= |Newest(ins, |ins|)|
               && |r| == QUERY_RESP_OVERHEAD + DESC_LENGTH * n
               && (Mtu(q.env) >= QUERY_RESP_OVERHEAD ==> |r| <= Mtu(q.env))
               && DecodeDescs(r[QUERY_RESP_OVERHEAD..], n) == Newest(ins, |ins|)[..n]
               && (MaxDescs(Mtu(q.env)) < 0x1_0000 ==>
                     n == if |Newest(ins, |ins|)| > MaxDescs(Mtu(q.env)) then MaxDescs(Mtu(q.env)) else |Newest(ins, |ins|)|)
  {
    LogIsFirstReports(ins);
    QueryRespDecodes(Run(Respond, FRESH, ins), q.frame, q.env);
  }

  // ----- the log by the fields of the frames ----------------------------------------------------

  /**
   * Input i is a Probe or Train to us, nothing clears the log after it, none before it since the log was last
   * cleared came with the same two sources, and d holds its fields.
   */
  ghost predicate Reports(ins: seq<Input>, i: nat, d: ProbeDesc) {
    && i < |ins| && IsProbe(ins[i]) && NoClearIn(ins, i, |ins|)
    && var h := ins[i].frame.header;
       && d.source == h.ethSource && d.realSource == h.realSource && d.dest == h.ethDest
       && d.kind == (if h.opcode == 0x04 then 1 else 0)
       && forall j | 0 <= j < i && IsProbe(ins[j]) && ins[j].frame.header.ethSource == h.ethSource
                     && ins[j].frame.header.realSource == h.realSource ::
            !NoClearIn(ins, j, i)
  }

  lemma FirstReports(ins: seq<Input>, i: nat)
    requires FirstSeen(ins, i)
    ensures Reports(ins, i, DescOf(ins[i].frame))
  {
  }

  /** The inputs behind the log, newest first. */
  ghost predicate Behind(ins: seq<Input>, n: nat, log: seq<ProbeDesc>, at: seq<nat>) {
    && |at| == |log|
    && (forall k | 0 <= k < |at| :: at[k] < n && Reports(ins, at[k], log[k]))
    && (forall k, l | 0 <= k < l < |at| :: at[k] > at[l])
  }

  lemma BehindOne(ins: seq<Input>, n: nat, at: seq<nat>) returns (at': seq<nat>)
    requires 0 < n <= |ins| && Behind(ins, n - 1, Newest(ins, n - 1), at)
    ensures Behind(ins, n, Newest(ins, n), at')
  {
    if FirstSeen(ins, n - 1) {
      FirstReports(ins, n - 1);
      BehindCons(ins, n - 1, Newest(ins, n - 1), at, DescOf(ins[n - 1].frame));
      at' := [n - 1] + at;
    } else {
      assert Newest(ins, n) == Newest(ins, n - 1);
      at' := at;
    }
  }

  lemma {:induction false} NewestBehind(ins: seq<Input>, n: nat) returns (at: seq<nat>)
    requires n <= |ins|
    ensures Behind(ins, n, Newest(ins, n), at)
  {
    if n == 0 {
      at := [];
    } else {
      at := NewestBehind(ins, n - 1);
      at := BehindOne(ins, n, at);
    }
  }

  lemma BehindCons(ins: seq<Input>, n: nat, log: seq<ProbeDesc>, at: seq<nat>, d: ProbeDesc)
    requires Behind(ins, n, log, at) && Reports(ins, n, d)
    ensures Behind(ins, n + 1, [d] + log, [n] + at)
  {
  }

  /** The log holds the two sources of this frame. */
  ghost predicate Logged(log: seq<ProbeDesc>, f: Frame) {
    exists k :: 0 <= k < |log| && log[k].source == f.header.ethSource && log[k].realSource == f.header.realSource
  }

  lemma ProbeIsLogged(ins: seq<Input>, i: nat)
    requires i < |ins| && IsProbe(ins[i]) && NoClearIn(ins, i, |ins|)
    ensures Logged(Run(Respond, FRESH, ins).log, ins[i].frame)
  {
    LogIsFirstReports(ins);
    var j := OriginHasFirst(ins, i, DescOf(ins[i].frame));
    SeenInNewest(ins, |ins|, DescOf(ins[i].frame));
    var log := Newest(ins, |ins|);
    var k :| 0 <= k < |log| && SameOrigin(DescOf(ins[i].frame), log[k]);
  }

  /**
   * After any history: every Probe or Train to us that nothing cleared is logged with both its sources, no two
   * descriptors agree in both, and each descriptor holds the fields of the earliest such frame, newest first.
   */
  lemma LogByFields(ins: seq<Input>) returns (at: seq<nat>)
    ensures var log := Run(Respond, FRESH, ins).log;
            && (forall i | 0 <= i < |ins| && IsProbe(ins[i]) && NoClearIn(ins, i, |ins|) :: Logged(log, ins[i].frame))
            && (forall k, l | 0 <= k < l < |log| :: log[k].source != log[l].source || log[k].realSource != log[l].realSource)
            && Behind(ins, |ins|, log, at)
  {
    forall i | 0 <= i < |ins| && IsProbe(ins[i]) && NoClearIn(ins, i, |ins|)
      ensures Logged(Run(Respond, FRESH, ins).log, ins[i].frame)
    {
      ProbeIsLogged(ins, i);
    }
    LogHasUniqueOrigins(ins);
    LogIsFirstReports(ins);
    at := NewestBehind(ins, |ins|);
  }

  /** The response to a Query lists, byte for byte, the fields of those frames, newest first and as many as fit. */
  lemma QueryByFields(ins: seq<Input>, q: Input) returns (at: seq<nat>)
    requires q.frame.header.tos == 0 && q.frame.header.opcode == 0x06
    ensures var out, log := Respond(Run(Respond, FRESH, ins), q).1, Run(Respond, FRESH, ins).log;
            && |out| == 1 && Behind(ins, |ins|, log, at)
            && U16At(out[0].body, 0) == Fitting(|log|, q.env)
            && forall k | 0 <= k < Fitting(|log|, q.env) :: Lists(out[0].body, k, log[k])
  {
    at := LogByFields(ins);
    QueryFields(Run(Respond, FRESH, ins), q.frame, q.env);
  }
}
