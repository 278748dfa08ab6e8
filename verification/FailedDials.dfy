/**
 * What follows a failed dial. The server reports the error and goes straight back to handleRequest, where it reads
 * whatever the application had already written for the refused session as the next request.
 */
module FailedDials {
  import opened Bytes
  import opened Streams
  import opened Requests
  import opened Sessions

  /** The bytes the application has written for the client's newest session. */
  function Written(s: State): seq<byte>
    requires s.clog != []
  {
    Last(s.clog).up
  }

  /** The application's bytes begin with a CONNECT request. */
  predicate WritesRequest(s: State)
    requires s.clog != []
  {
    ParseRequest(Written(s)).Connect?
  }

  /** A client that is still there has been sent no zero chunk. */
  predicate NoZeroSent(s: State) {
    s.client.Gone? || (!s.client.Idle? && ZeroChunk !in s.s2c)
  }

  /** One error reply and nothing else. */
  predicate OneError(p: seq<Item>) {
    var L := LeadingBytes(p);
    |L| == |p| && WholeError(L) && |L| == 3 + L[2] as int
  }

  /** A client that is still there has the error reply before it, or has read it as its response. */
  predicate ErrorPending(s: State) {
    s.client.Relaying? || s.client.Draining? ==>
      && !s.client.sawEof
      && if s.client.reply then s.s2c == [] else OneError(s.s2c)
  }

  /** After a failed dial, the server about to read all that the application wrote and no more. */
  predicate AfterFailure(s: State) {
    && s.refused && s.clog != [] && s.server.Awaiting?
    && s.c2s == Items(Written(s)) + (if ClientClosed(s.client) then [ZeroChunk] else [])
    && NoZeroSent(s) && ErrorPending(s)
  }

  /** The server has made no request of it. */
  predicate Abandoned(s: State) {
    s.clog != [] && s.server.Closed? && NoZeroSent(s)
  }

  /** Where a failed dial leads from any state a safe run reaches: the header is used up, nothing else is lost. */
  lemma FailedDial(s: State, a: Action)
    requires Inv(s) && a.Refuse? && Next(s, a).Some?
    ensures var s' := Next(s, a).value;
      AfterFailure(s') && s'.clog == s.clog && s'.slog == s.slog && |s.clog| == |s.slog| + 1
    ensures var m := if |a.message| > 250 then a.message[..250] else a.message;
      Next(s, a).value.s2c == s.s2c + Items([2, a.code, |m|] + m)
  {
    hide LeadingBytes, ParseRequest, EncodeError, OneError, UpInv, DownInv;
    HeaderUsedUp(s, a);
    ErrorBytes(a.code, a.message);
    if !s.client.Gone? {
      NothingSentYet(s);
      ErrorIsWhole(a.code, a.message);
      assert Next(s, a).value.s2c == Items(EncodeError(a.code, a.message));
    }
  }

  lemma ErrorBytes(code: byte, message: seq<byte>)
    ensures var m := if |message| > 250 then message[..250] else message;
      EncodeError(code, message) == [2, code, |m|] + m
  {
  }

  lemma HeaderUsedUp(s: State, a: Action)
    requires Inv(s) && a.Refuse? && Next(s, a).Some?
    ensures |s.clog| == |s.slog| + 1
    ensures var s' := Next(s, a).value;
      s'.server.Awaiting? && s'.c2s == Items(Written(s)) + (if ClientClosed(s.client) then [ZeroChunk] else [])
  {
    hide LeadingBytes, ParseRequest, EncodeError, Head, DownInv;
    EmptyIsShort();
    SessionParses(s);
    var l := Last(s.clog);
    var tail := if ClientClosed(s.client) then [ZeroChunk] else [];
    ItemsAppend(Head(l), l.up);
    assert s.c2s == Items(Head(l)) + (Items(l.up) + tail);
    SplitAppend(Items(Head(l)), Items(l.up) + tail);
  }

  lemma NothingSentYet(s: State)
    requires Inv(s) && |s.clog| > |s.slog| && !s.client.Gone?
    ensures (s.client.Relaying? || s.client.Draining?) && s.s2c == [] && !s.client.reply && !s.client.sawEof
  {
    hide UpInv;
  }

  lemma ErrorIsWhole(code: byte, message: seq<byte>)
    ensures OneError(Items(EncodeError(code, message))) && ZeroChunk !in Items(EncodeError(code, message))
  {
    var e := EncodeError(code, message);
    LeadingBytesOf(e, []);
    assert Items(e) + [] == Items(e);
  }

  /** More bytes behind a request do not change it. */
  lemma ParseMonotone(b: seq<byte>, more: seq<byte>)
    requires ParseRequest(b).Connect?
    ensures ParseRequest(b + more) == ParseRequest(b)
  {
    var all := b + more;
    var off := 3 + b[2] as int;
    var end := off + 1 + b[off] as int;
    assert all[off + 1..end] == b[off + 1..end] && all[end..end + 2] == b[end..end + 2];
  }

  /** What every step within the session keeps: nothing for the client, or the application has written a request. */
  predicate Unserved(s: State) {
    s.clog != [] && (AfterFailure(s) || Abandoned(s) || WritesRequest(s))
  }

  lemma UnservedKeeps(s: State, a: Action)
    requires Unserved(s) && Next(s, a).Some? && !a.Open?
    ensures Unserved(Next(s, a).value)
  {
    hide ParseRequest, LeadingBytes, WholeError;
    var s' := Next(s, a).value;
    if WritesRequest(s) {
      if a.ClientWrite? {
        ParseMonotone(Written(s), a.b);
      }
    } else if a.Accept? || a.Refuse? {
      if AfterFailure(s) {
        LeadingIsWritten(s);
      }
    } else {
      ClientStepKeeps(s, a);
    }
  }

  lemma LeadingIsWritten(s: State)
    requires AfterFailure(s)
    ensures LeadingBytes(s.c2s) == Written(s)
  {
    var tail := if ClientClosed(s.client) then [ZeroChunk] else [];
    LeadingBytesOf(Written(s), tail);
    assert LeadingBytes(tail) == [];
  }

  /** The client alone, or a server that has closed. */
  lemma ClientStepKeeps(s: State, a: Action)
    requires (AfterFailure(s) || Abandoned(s)) && Next(s, a).Some? && !a.Open? && !a.Accept? && !a.Refuse?
    ensures AfterFailure(s) ==> AfterFailure(Next(s, a).value)
    ensures Abandoned(s) ==> Abandoned(Next(s, a).value)
  {
    hide LeadingBytes;
    var s' := Next(s, a).value;
    if s.s2c != [] {
      LeadingAt(s.s2c, 0);
      LeadingAt(s.s2c, |LeadingBytes(s.s2c)|);
    }
    if a.ClientWrite? {
      ItemsAppend(Written(s), a.b);
    }
  }

  predicate WithinSession(actions: seq<Action>) {
    forall a <- actions :: !a.Open?
  }

  lemma {:induction false} UnservedRun(s: State, actions: seq<Action>)
    requires Unserved(s) && WithinSession(actions) && Run(s, actions).Some?
    ensures Unserved(Run(s, actions).value)
    decreases |actions|
  {
    hide Unserved, Next;
    if actions != [] {
      UnservedKeeps(s, actions[0]);
      UnservedRun(Next(s, actions[0]).value, actions[1..]);
    }
  }

  /** Only what the application wrote can bring a refused connection back: it is pooled only if that is a request. */
  lemma FailedDialPoolsOnRequest(s: State, a: Action, actions: seq<Action>)
    requires Inv(s) && a.Refuse? && Next(s, a).Some?
    requires WithinSession(actions) && Run(Next(s, a).value, actions).Some?
    ensures var end := Run(Next(s, a).value, actions).value;
      end.clog != [] && (end.client.Idle? ==> WritesRequest(end))
  {
    hide Inv, Next, Run, WritesRequest;
    FailedDial(s, a);
    UnservedRun(Next(s, a).value, actions);
  }

  // ---- Exactly when a closed session is still pooled ----

  /** No step can pool this client any more: its drain is bound to end at the error, or it has no use left. */
  predicate Hopeless(s: State) {
    || s.client.Gone?
    || (s.client.Draining? && (|s.clog| >= MAX_USES || (!s.client.reply && WholeError(LeadingBytes(s.s2c)))))
  }

  lemma HopelessKeeps(s: State, a: Action)
    requires Hopeless(s) && Next(s, a).Some?
    ensures Hopeless(Next(s, a).value)
  {
    hide ParseRequest, LazyItems, EncodeError, LeadingBytes, WholeError;
    var s' := Next(s, a).value;
    if a.ClientDrain? {
      HopelessDrain(s, a);
    } else if s.client.Draining? && !a.ClientGone? {
      ServerOnlySends(s, a);
      LeadingGrows(s.s2c, s'.s2c);
      ErrorGrows(LeadingBytes(s.s2c), LeadingBytes(s'.s2c));
    }
  }

  lemma HopelessDrain(s: State, a: Action)
    requires Hopeless(s) && a.ClientDrain? && Next(s, a).Some?
    ensures Hopeless(Next(s, a).value)
  {
    hide LeadingBytes;
    LeadingAt(s.s2c, 0);
  }

  lemma ErrorGrows(b: seq<byte>, c: seq<byte>)
    requires b <= c
    ensures WholeError(b) ==> WholeError(c)
  {
  }

  /** While a client drains, every other step only adds to what it can read. */
  lemma ServerOnlySends(s: State, a: Action)
    requires s.client.Draining? && !a.ClientDrain? && !a.ClientGone? && Next(s, a).Some?
    ensures var s' := Next(s, a).value; s.s2c <= s'.s2c && s'.client == s.client && s'.clog == s.clog
  {
    hide ParseRequest, LazyItems, EncodeError, LeadingBytes;
  }

  lemma LeadingGrows(p: seq<Item>, q: seq<Item>)
    requires p <= q
    ensures LeadingBytes(p) <= LeadingBytes(q)
  {
    var L := LeadingBytes(p);
    LeadingTake(p, |L|);
    assert q == Items(L) + q[|L|..];
    LeadingBytesOf(L, q[|L|..]);
  }

  lemma {:induction false} HopelessRun(s: State, actions: seq<Action>)
    requires Hopeless(s) && Run(s, actions).Some?
    ensures Hopeless(Run(s, actions).value)
    decreases |actions|
  {
    hide Hopeless, Next;
    if actions != [] {
      HopelessKeeps(s, actions[0]);
      HopelessRun(Next(s, actions[0]).value, actions[1..]);
    }
  }

  ghost predicate CanBePooled(s: State) {
    exists actions :: WithinSession(actions) && Run(s, actions).Some? && Run(s, actions).value.client.Idle?
  }

  lemma {:induction false} ClosedStaysClosed(s: State, actions: seq<Action>)
    requires !s.client.Relaying? && WithinSession(actions) && Run(s, actions).Some?
    ensures Run(s, actions).value.clog == s.clog
    decreases |actions|
  {
    hide Next;
    if actions != [] {
      ClosedStep(s, actions[0]);
      ClosedStaysClosed(Next(s, actions[0]).value, actions[1..]);
    }
  }

  lemma ClosedStep(s: State, a: Action)
    requires !s.client.Relaying? && !a.Open? && Next(s, a).Some?
    ensures !Next(s, a).value.client.Relaying? && Next(s, a).value.clog == s.clog
  {
    hide ParseRequest, LazyItems, EncodeError, LeadingBytes, WholeError;
  }

  const SERVED: seq<Action> := [Accept, RelayEnds, Tail, ClientDrain(1), ClientDrain(1)]

  /**
   * The server takes on the written request; upstream closes without a byte, and the client finds a zero chunk to drain
   * to. If the request was not for reuse, the connection in the pool is one the server has closed.
   */
  lemma ServedAndPooled(s: State)
    requires AfterFailure(s) && WritesRequest(s)
    requires s.client.Draining? && s.client.reply && |s.clog| < MAX_USES
    ensures var r := ParseRequest(Written(s));
      && Run(s, SERVED).Some?
      && Run(s, SERVED).value.client.Idle?
      && Run(s, SERVED).value.server == (if r.reuse then Trailer(false) else Closed)
      && Run(s, SERVED).value.slog == s.slog + [Log(r.host, r.port, [], [])]
  {
    hide Run, ParseRequest, LeadingBytes;
    LeadingIsWritten(s);
    var s1 := Next(s, Accept).value;
    var s2 := Next(s1, RelayEnds).value;
    var s3 := Next(s2, Tail).value;
    assert s3.s2c == Items([RESPONSE_TUNNEL]) + [ZeroChunk];
    LeadingBytesOf([RESPONSE_TUNNEL], [ZeroChunk]);
    var s4 := Next(s3, ClientDrain(1)).value;
    assert s4.s2c == [ZeroChunk];
    var s5 := Next(s4, ClientDrain(1)).value;
    RunCons(s, Accept, SERVED[1..], SERVED);
    RunCons(s1, RelayEnds, SERVED[2..], SERVED[1..]);
    RunCons(s2, Tail, SERVED[3..], SERVED[2..]);
    RunCons(s3, ClientDrain(1), SERVED[4..], SERVED[3..]);
    RunCons(s4, ClientDrain(1), [], SERVED[4..]);
    RunNothing(s5);
  }

  /**
   * After a failed dial, once the client has closed its session: the connection can still be pooled if and only if the
   * relay has read the error reply, the connection has a use left, and what the application wrote is a CONNECT request,
   * which the server then takes on as if the client had sent it.
   */
  lemma FailedDialPoolsExactly(s: State)
    requires AfterFailure(s) && s.client.Draining?
    ensures CanBePooled(s) <==> s.client.reply && |s.clog| < MAX_USES && WritesRequest(s)
  {
    hide Run, ParseRequest, LeadingBytes, WholeError;
    if s.client.reply && |s.clog| < MAX_USES && WritesRequest(s) {
      ServedAndPooled(s);
    }
    if CanBePooled(s) {
      var actions :| WithinSession(actions) && Run(s, actions).Some? && Run(s, actions).value.client.Idle?;
      UnservedRun(s, actions);
      ClosedStaysClosed(s, actions);
      if Hopeless(s) {
        HopelessRun(s, actions);
      }
    }
  }

  /** A dial can always fail. */
  lemma CanFail(s: State, code: byte, message: seq<byte>)
    requires Inv(s) && s.server.Awaiting? && |s.clog| > |s.slog| && Last(s.clog).host != []
    ensures Next(s, Refuse(code, message, 0)).Some?
  {
    hide LeadingBytes, ParseRequest, UpItems, Head;
    SessionParses(s);
  }

  lemma ReadAndClosed(s: State)
    requires AfterFailure(s) && s.client.Relaying? && !s.client.reply
    ensures var closed := Run(s, [ClientReply, ClientClose]);
      && closed.Some? && AfterFailure(closed.value) && closed.value.client.Draining? && closed.value.client.reply
      && closed.value.clog == s.clog && closed.value.slog == s.slog
  {
    hide Run, LeadingBytes;
    var s1 := Next(s, ClientReply).value;
    ClientStepKeeps(s, ClientReply);
    ClientStepKeeps(s1, ClientClose);
    RunCons(s, ClientReply, [ClientClose], [ClientReply, ClientClose]);
    RunCons(s1, ClientClose, [], [ClientClose]);
    RunNothing(Next(s1, ClientClose).value);
  }

  /**
   * That happens: the dial of h fails while the application's first bytes are a CONNECT request for another host. The
   * server reads them as the client's next header and takes on that host, for a session the client never opened; and
   * the connection ends up back in the pool.
   */
  lemma RequestInData(h: Host, port: uint16, other: Host, otherPort: uint16, code: byte, message: seq<byte>)
    requires h != [] && other != []
    ensures var l := Log(other, otherPort, [], []);
      var failed := Run(INIT, [Open(h, port), ClientWrite(Head(l)), Refuse(code, message, 0)]);
      && failed.Some?
      && var closed := Run(failed.value, [ClientReply, ClientClose]);
         && closed.Some? && closed.value.clog == [Log(h, port, Head(l), [])] && closed.value.slog == []
         && var pooled := Run(closed.value, SERVED);
            pooled.Some? && pooled.value.client.Idle? && pooled.value.slog == [l]
  {
    hide Run, ParseRequest, LeadingBytes, AfterFailure, Inv, EncodeConnect, SERVED;
    var l, mine := Log(other, otherPort, [], []), Log(h, port, [], []);
    InitInv();
    OpenKeeps(INIT, Open(h, port));
    var s1 := Next(INIT, Open(h, port)).value;
    assert s1.clog == [mine] && s1.slog == [];
    var b := Head(l);
    ClientWriteKeeps(s1, ClientWrite(b));
    var s2 := Next(s1, ClientWrite(b)).value;
    assert s2.clog == [Log(h, port, b, [])] by {
      assert [] + b == b;
    }
    RunCons(INIT, Open(h, port), [ClientWrite(b), Refuse(code, message, 0)], [Open(h, port), ClientWrite(b), Refuse(code, message, 0)]);
    RunCons(s1, ClientWrite(b), [Refuse(code, message, 0)], [ClientWrite(b), Refuse(code, message, 0)]);
    CanFail(s2, code, message);
    var s3 := Next(s2, Refuse(code, message, 0)).value;
    RunCons(s2, Refuse(code, message, 0), [], [Refuse(code, message, 0)]);
    RunNothing(s3);
    FailedDial(s2, Refuse(code, message, 0));
    ReadAndClosed(s3);
    var s5 := Run(s3, [ClientReply, ClientClose]).value;
    ConnectRoundTrip(other, otherPort, true, []);
    assert b + [] == b == EncodeConnect(other, otherPort, true).value;
    ServedAndPooled(s5);
  }
}
