/**
 * Runs of the joint protocol against their own list of actions: what the logs of a state say is what the applications
 * on either side did, and nothing stands in the way of a session that does all it can.
 */
module Histories {
  import opened Bytes
  import opened Streams
  import opened Requests
  import opened Sessions

  /** What the client's applications asked for: a target per Open, and everything written since. */
  datatype Wish = Wish(host: Host, port: uint16, up: seq<byte>)

  function AskedNext(asked: seq<Wish>, a: Action): seq<Wish> {
    if a.Open? then asked + [Wish(a.host, a.port, [])]
    else if a.ClientWrite? && asked != [] then
      var w := asked[|asked| - 1];
      asked[|asked| - 1 := w.(up := w.up + a.b)]
    else asked
  }

  function Asked(actions: seq<Action>): seq<Wish>
    decreases |actions|
  {
    if actions == [] then [] else AskedNext(Asked(actions[..|actions| - 1]), actions[|actions| - 1])
  }

  /** What upstream sent, per request the server turned to. */
  function RelayedNext(relayed: seq<seq<byte>>, a: Action): seq<seq<byte>> {
    if a.Accept? then relayed + [[]]
    else if a.ServerSend? && relayed != [] then relayed[|relayed| - 1 := relayed[|relayed| - 1] + a.b]
    else relayed
  }

  function Relayed(actions: seq<Action>): seq<seq<byte>>
    decreases |actions|
  {
    if actions == [] then [] else RelayedNext(Relayed(actions[..|actions| - 1]), actions[|actions| - 1])
  }

  /** The client's logs are what was asked for; the server's hold what upstream sent. */
  predicate Recorded(s: State, asked: seq<Wish>, relayed: seq<seq<byte>>) {
    && |s.clog| == |asked|
    && (forall t :: 0 <= t < |asked| ==> asked[t] == Wish(s.clog[t].host, s.clog[t].port, s.clog[t].up))
    && |s.slog| <= |relayed|
    && (!s.server.Closed? ==> |s.slog| == |relayed|)
    && (forall t :: 0 <= t < |s.slog| ==> s.slog[t].down == relayed[t])
  }

  lemma {:induction false} RunSnoc(s: State, actions: seq<Action>, a: Action)
    requires Run(s, actions + [a]).Some?
    ensures Run(s, actions).Some? && Next(Run(s, actions).value, a).Some?
    ensures Run(s, actions + [a]) == Next(Run(s, actions).value, a)
    decreases |actions|
  {
    hide Next;
    if actions == [] {
      assert actions + [a] == [a] && [a][1..] == [];
      RunNothing(Next(s, a).value);
    } else {
      assert (actions + [a])[1..] == actions[1..] + [a];
      RunSnoc(Next(s, actions[0]).value, actions[1..], a);
    }
  }

  /** The same logs but for what was received. */
  predicate SameSent(s: State, s': State) {
    && |s'.clog| == |s.clog| && |s'.slog| == |s.slog|
    && (forall t :: 0 <= t < |s.clog| ==> s'.clog[t].(down := s.clog[t].down) == s.clog[t])
    && (forall t :: 0 <= t < |s.slog| ==> s'.slog[t].(up := s.slog[t].up) == s.slog[t])
    && (s.server.Closed? ==> s'.server.Closed?)
  }

  predicate ServerStep(a: Action) {
    a.Refuse? || a.ServerRead? || a.RelayEnds? || a.Tail? || a.SendZero? || a.ServerDrain?
  }

  lemma ServerStepLogs(s: State, a: Action)
    requires Next(s, a).Some? && ServerStep(a)
    ensures SameSent(s, Next(s, a).value)
  {
    hide ParseRequest, LeadingBytes, LazyItems, EncodeError, WholeError, ReplySize;
  }

  lemma ClientStepLogs(s: State, a: Action)
    requires Next(s, a).Some? && !ServerStep(a) && !a.Open? && !a.ClientWrite? && !a.Accept? && !a.ServerSend?
    ensures SameSent(s, Next(s, a).value)
  {
    hide ParseRequest, LeadingBytes, LazyItems, EncodeError, WholeError, ReplySize;
  }

  lemma RecordedStep(s: State, a: Action, asked: seq<Wish>, relayed: seq<seq<byte>>)
    requires Next(s, a).Some? && Recorded(s, asked, relayed)
    ensures Recorded(Next(s, a).value, AskedNext(asked, a), RelayedNext(relayed, a))
  {
    hide Next, Recorded;
    if a.Open? {
      OpenRecorded(s, a, asked, relayed);
    } else if a.ClientWrite? {
      WriteRecorded(s, a, asked, relayed);
    } else if a.Accept? {
      AcceptRecorded(s, a, asked, relayed);
    } else if a.ServerSend? {
      SendRecorded(s, a, asked, relayed);
    } else {
      OtherRecorded(s, a, asked, relayed);
    }
  }

  lemma OtherRecorded(s: State, a: Action, asked: seq<Wish>, relayed: seq<seq<byte>>)
    requires Next(s, a).Some? && !a.Open? && !a.ClientWrite? && !a.Accept? && !a.ServerSend?
    requires Recorded(s, asked, relayed)
    ensures Recorded(Next(s, a).value, asked, relayed)
  {
    hide Next;
    if ServerStep(a) {
      ServerStepLogs(s, a);
    } else {
      ClientStepLogs(s, a);
    }
    var s' := Next(s, a).value;
    forall t | 0 <= t < |asked| ensures asked[t] == Wish(s'.clog[t].host, s'.clog[t].port, s'.clog[t].up) {
      assert s'.clog[t].(down := s.clog[t].down) == s.clog[t];
    }
    forall t | 0 <= t < |s'.slog| ensures s'.slog[t].down == relayed[t] {
      assert s'.slog[t].(up := s.slog[t].up) == s.slog[t];
    }
  }

  lemma OpenRecorded(s: State, a: Action, asked: seq<Wish>, relayed: seq<seq<byte>>)
    requires a.Open? && Next(s, a).Some? && Recorded(s, asked, relayed)
    ensures Recorded(Next(s, a).value, AskedNext(asked, a), RelayedNext(relayed, a))
  {
    hide Head;
  }

  lemma WriteRecorded(s: State, a: Action, asked: seq<Wish>, relayed: seq<seq<byte>>)
    requires a.ClientWrite? && Next(s, a).Some? && Recorded(s, asked, relayed)
    ensures Recorded(Next(s, a).value, AskedNext(asked, a), RelayedNext(relayed, a))
  {
  }

  lemma AcceptRecorded(s: State, a: Action, asked: seq<Wish>, relayed: seq<seq<byte>>)
    requires a.Accept? && Next(s, a).Some? && Recorded(s, asked, relayed)
    ensures Recorded(Next(s, a).value, AskedNext(asked, a), RelayedNext(relayed, a))
  {
    hide ParseRequest, LeadingBytes;
  }

  lemma SendRecorded(s: State, a: Action, asked: seq<Wish>, relayed: seq<seq<byte>>)
    requires a.ServerSend? && Next(s, a).Some? && Recorded(s, asked, relayed)
    ensures Recorded(Next(s, a).value, AskedNext(asked, a), RelayedNext(relayed, a))
  {
    hide LazyItems;
  }

  /** In every run, safe or not, the logs record exactly what the actions did. */
  lemma {:induction false} RunRecorded(actions: seq<Action>)
    requires Run(INIT, actions).Some?
    ensures Recorded(Run(INIT, actions).value, Asked(actions), Relayed(actions))
    decreases |actions|
  {
    hide Next, Recorded, Run;
    if actions == [] {
      StartRecorded();
    } else {
      var before, a := actions[..|actions| - 1], actions[|actions| - 1];
      assert actions == before + [a];
      RunSnoc(INIT, before, a);
      RunRecorded(before);
      RecordedStep(Run(INIT, before).value, a, Asked(before), Relayed(before));
    }
  }

  lemma StartRecorded()
    ensures Run(INIT, []) == Some(INIT) && Recorded(INIT, Asked([]), Relayed([]))
  {
  }

  /**
   * In every safe run, session by session: the server serves the target that was asked for, hands upstream a front part
   * of what the application wrote for it, and the client gets a front part of what upstream sent for it, where asked,
   * written and sent are read off the actions alone.
   */
  lemma OnlyWhatWasSent(actions: seq<Action>)
    requires SafeRun(INIT, actions)
    ensures Run(INIT, actions).Some?
    ensures var s, asked, relayed := Run(INIT, actions).value, Asked(actions), Relayed(actions);
      && |s.slog| <= |s.clog| == |asked| && |s.slog| <= |relayed|
      && forall t :: 0 <= t < |s.slog| ==>
           && s.slog[t].host == asked[t].host && s.slog[t].port == asked[t].port
           && s.slog[t].up <= asked[t].up
           && s.clog[t].down <= relayed[t]
  {
    hide Run, SafeRun, Inv, Asked, Relayed;
    ReuseSafety(actions);
    RunRecorded(actions);
  }

  // ---- A session that does all it can ----

  /** Between sessions, on either side. */
  predicate Resting(s: State) {
    && s.client.Idle? && s.server.Awaiting? && s.c2s == [] && s.s2c == [] && |s.clog| == |s.slog| < MAX_USES
    && !s.refused
  }

  /** So is a fresh connection, and a safely pooled one once the server has finished with it. */
  lemma AtRestAgain(actions: seq<Action>)
    requires SafeRun(INIT, actions)
    ensures Resting(INIT) && Run(INIT, actions).Some?
    ensures var s := Run(INIT, actions).value;
      s.client.Idle? && s.server.Awaiting? && s.c2s == [] ==> Resting(s)
  {
    hide Next, UpInv;
    InitInv();
    SafeRunKeeps(INIT, actions);
  }

  function Request(host: Host, port: uint16, up: seq<byte>): seq<Action> {
    [Open(host, port), ClientWrite(up), Accept, ServerRead(|up|)]
  }

  function Response(down: seq<byte>): seq<Action> {
    [ServerSend(down), ClientReply, ClientRead(|down|)]
  }

  const CLOSING: seq<Action> := [ClientClose, ServerRead(1), RelayEnds]
  const ENDING: seq<Action> := [Tail, SendZero, ClientDrain(1)]

  /**
   * From a fresh or a pooled connection, for every target and all data both ways: a session in which the client writes
   * up, upstream answers down, and the client closes delivers both in full, and leaves the connection at rest again, in
   * the pool while it has a use left.
   */
  lemma FullSession(s: State, host: Host, port: uint16, up: seq<byte>, down: seq<byte>)
    requires Resting(s) && host != [] && up != [] && down != []
    ensures var l := Log(host, port, up, down);
      var end := Run(s, Request(host, port, up) + Response(down) + CLOSING + ENDING);
      && end.Some?
      && end.value.clog == s.clog + [l] && end.value.slog == s.slog + [l]
      && end.value.c2s == [] && end.value.s2c == [] && end.value.server.Awaiting?
      && end.value.client == (if |s.clog| + 1 < MAX_USES then Idle else Gone(true))
      && (|s.clog| + 1 < MAX_USES ==> Resting(end.value))
  {
    hide Run, Request, Response, CLOSING, ENDING;
    RequestRun(s, host, port, up);
    var asked := Run(s, Request(host, port, up)).value;
    ResponseRun(asked, down);
    var answered := Run(asked, Response(down)).value;
    ClosingRun(answered);
    var closed := Run(answered, CLOSING).value;
    EndingRun(closed);
    RunAppend(s, Request(host, port, up), Response(down));
    RunAppend(s, Request(host, port, up) + Response(down), CLOSING);
    RunAppend(s, Request(host, port, up) + Response(down) + CLOSING, ENDING);
    assert [] + down == down;
    assert answered.clog[..|s.clog|] == s.clog && answered.slog[..|s.slog|] == s.slog;
    assert answered.clog == s.clog + [Log(host, port, up, down)];
    assert answered.slog == s.slog + [Log(host, port, up, down)];
  }

  lemma {:induction false} RunAppend(s: State, a: seq<Action>, b: seq<Action>)
    requires Run(s, a).Some?
    ensures Run(s, a + b) == Run(Run(s, a).value, b)
    decreases |a|
  {
    hide Next;
    if a == [] {
      assert a + b == b;
    } else {
      assert (a + b)[1..] == a[1..] + b;
      RunAppend(Next(s, a[0]).value, a[1..], b);
    }
  }

  /** Both sides in a session that has relayed nothing back. */
  predicate Asking(s: State) {
    && s.client == Relaying(false, false) && s.server == Serving(false, false) && s.c2s == [] && s.s2c == []
    && |s.clog| == |s.slog| > 0 && s.reuse && !s.refused
  }

  lemma RequestRun(s: State, host: Host, port: uint16, up: seq<byte>)
    requires Resting(s) && host != [] && up != []
    ensures var end := Run(s, Request(host, port, up));
      && end.Some? && Asking(end.value)
      && end.value.clog == s.clog + [Log(host, port, up, [])] && end.value.slog == s.slog + [Log(host, port, up, [])]
  {
    hide Run, ParseRequest, LeadingBytes, EncodeConnect;
    var l := Log(host, port, [], []);
    var s1 := Next(s, Open(host, port)).value;
    assert s1.c2s == Items(Head(l));
    var s2 := Next(s1, ClientWrite(up)).value;
    assert [] + up == up;
    assert s2.clog == s.clog + [Log(host, port, up, [])];
    LeadingBytesOf(Head(l), Items(up));
    OnlyBytes(up);
    ConnectRoundTrip(host, port, true, up);
    var s3 := Next(s2, Accept).value;
    SplitAppend(Items(Head(l)), Items(up));
    assert s3.c2s == Items(up);
    assert LeadingBytes(s3.c2s)[..|up|] == up;
    var s4 := Next(s3, ServerRead(|up|)).value;
    assert s4.c2s == [];
    assert s4.slog == s.slog + [Log(host, port, up, [])];
    var all := Request(host, port, up);
    RunCons(s, Open(host, port), all[1..], all);
    RunCons(s1, ClientWrite(up), all[2..], all[1..]);
    RunCons(s2, Accept, all[3..], all[2..]);
    RunCons(s3, ServerRead(|up|), [], all[3..]);
    RunNothing(s4);
  }

  lemma OnlyBytes(b: seq<byte>)
    ensures LeadingBytes(Items(b)) == b
  {
    LeadingBytesOf(b, []);
    assert Items(b) + [] == Items(b);
  }

  lemma ResponseRun(s: State, down: seq<byte>)
    requires Asking(s) && down != [] && Last(s.clog).down == [] && Last(s.slog).down == []
    ensures var end := Run(s, Response(down));
      && end.Some? && end.value.client == Relaying(true, false) && end.value.server == Serving(true, false)
      && end.value.c2s == [] && end.value.s2c == [] && end.value.reuse && !end.value.refused
      && end.value.clog == SetLast(s.clog, Last(s.clog).(down := down))
      && end.value.slog == SetLast(s.slog, Last(s.slog).(down := down))
  {
    hide Run, Next, LeadingBytes, LazyItems;
    assert [] + down == down;
    SendStep(s, down);
    var s1 := Next(s, ServerSend(down)).value;
    ReplyStep(s1, down);
    var s2 := Next(s1, ClientReply).value;
    ReadStep(s2, down);
    var s3 := Next(s2, ClientRead(|down|)).value;
    var acts := Response(down);
    RunCons(s, ServerSend(down), acts[1..], acts);
    RunCons(s1, ClientReply, acts[2..], acts[1..]);
    RunCons(s2, ClientRead(|down|), [], acts[2..]);
    RunNothing(s3);
  }

  lemma SendStep(s: State, down: seq<byte>)
    requires Asking(s) && down != []
    ensures Next(s, ServerSend(down))
      == Some(s.(s2c := Items([RESPONSE_TUNNEL] + down), server := Serving(true, false),
                 slog := SetLast(s.slog, Last(s.slog).(down := Last(s.slog).down + down))))
  {
    assert [] + LazyItems(false, down) == LazyItems(false, down);
  }

  lemma ReplyStep(s: State, down: seq<byte>)
    requires s.client == Relaying(false, false) && s.s2c == Items([RESPONSE_TUNNEL] + down)
    ensures Next(s, ClientReply) == Some(s.(s2c := Items(down), client := Relaying(true, false), taken := s.taken + 1))
  {
    hide LeadingBytes;
    var all := [RESPONSE_TUNNEL] + down;
    OnlyBytes(all);
    ItemsTail(all, []);
    assert Items(all) + [] == Items(all) && Items(down) + [] == Items(down) && all[1..] == down;
  }

  lemma ReadStep(s: State, down: seq<byte>)
    requires s.client == Relaying(true, false) && s.s2c == Items(down) && down != [] && s.clog != []
    ensures Next(s, ClientRead(|down|))
      == Some(s.(s2c := [], clog := SetLast(s.clog, Last(s.clog).(down := Last(s.clog).down + down)), taken := s.taken + |down|))
  {
    hide LeadingBytes;
    OnlyBytes(down);
    assert down[..|down|] == down;
    assert Items(down)[|down|..] == [];
  }

  lemma ClosingRun(s: State)
    requires s.client.Relaying? && s.server == Serving(true, false) && s.c2s == [] && s.slog != []
    ensures Run(s, CLOSING)
      == Some(s.(client := Draining(s.client.reply, s.client.sawEof), server := Ended(true, true), given := s.given + 1))
  {
    hide Run, LeadingBytes;
    var s1 := Next(s, ClientClose).value;
    assert s1.c2s == [ZeroChunk];
    var s2 := Next(s1, ServerRead(1)).value;
    assert s2.c2s == [];
    var s3 := Next(s2, RelayEnds).value;
    RunCons(s, ClientClose, CLOSING[1..], CLOSING);
    RunCons(s1, ServerRead(1), CLOSING[2..], CLOSING[1..]);
    RunCons(s2, RelayEnds, [], CLOSING[2..]);
    RunNothing(s3);
  }

  lemma EndingRun(s: State)
    requires s.client.Draining? && s.server == Ended(true, true) && s.s2c == [] && s.reuse
    ensures Run(s, ENDING)
      == Some(s.(client := if |s.clog| >= MAX_USES then Gone(true) else Idle, server := Awaiting, taken := s.taken + 1))
  {
    hide Run, LeadingBytes;
    var s1 := Next(s, Tail).value;
    assert s1.s2c == [];
    var s2 := Next(s1, SendZero).value;
    assert s2.s2c == [ZeroChunk];
    var s3 := Next(s2, ClientDrain(1)).value;
    assert s3.s2c == [];
    RunCons(s, Tail, ENDING[1..], ENDING);
    RunCons(s1, SendZero, ENDING[2..], ENDING[1..]);
    RunCons(s2, ClientDrain(1), [], ENDING[2..]);
    RunNothing(s3);
  }
}
