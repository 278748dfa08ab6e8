/**
 * Connection reuse as a two-party protocol: one pooled client connection, one server loop, and the items in flight
 * each way. Dials, relay traffic, deadlines between frames and who closes first are arbitrary actions.
 */
module Sessions {
  import opened Bytes
  import opened Streams
  import opened Requests
  import ConnPool

  const MAX_USES: nat := ConnPool.MAX_USES

  type Host = h: seq<byte> | |h| <= MAX_HOST

  /** One CONNECT session as one side saw it: its target, and the relayed bytes each way. */
  datatype Log = Log(host: Host, port: uint16, up: seq<byte>, down: seq<byte>)

  /** PoolConn: idle (dialed or pooled), relaying, closing, or discarded. */
  datatype Client =
    | Idle
    | Relaying(reply: bool, sawEof: bool)
    | Draining(reply: bool, sawEof: bool)
    | Gone(wroteZero: bool)

  /** handleConn: between requests, in the relay, behind it, draining, or done. */
  datatype Server =
    | Awaiting
    | Serving(sent: bool, zeroSeen: bool)
    | Ended(sent: bool, zeroSeen: bool)
    | Trailer(zeroSeen: bool)
    | DrainingClient
    | Closed

  /**
   * `taken` and `given` count the items of the current session the client has read and the server has read; `reuse` is
   * the mode of the session the server is in; `refused` says that a dial has failed on this connection.
   */
  datatype State = State(c2s: seq<Item>, s2c: seq<Item>, client: Client, server: Server,
                         clog: seq<Log>, slog: seq<Log>, taken: nat, given: nat, reuse: bool, refused: bool)

  const INIT := State([], [], Idle, Awaiting, [], [], 0, 0, true, false)

  datatype Action =
    | Open(host: Host, port: uint16)
    | ClientWrite(b: seq<byte>)
    | ClientReply
    | ClientRead(n: nat)
    | ClientClose
    | ClientDrain(n: nat)
    | ClientGone
    | Accept
    | Refuse(code: byte, message: seq<byte>, lost: nat)
    | ServerRead(n: nat)
    | ServerSend(b: seq<byte>)
    | RelayEnds
    | Tail
    | SendZero
    | ServerDrain(n: nat)

  function Head(l: Log): (h: seq<byte>)
    ensures |h| == 6 + |l.host|
  {
    EncodeConnect(l.host, l.port, true).value
  }

  function Last(logs: seq<Log>): Log
    requires logs != []
  {
    logs[|logs| - 1]
  }

  function SetLast(logs: seq<Log>, l: Log): seq<Log>
    requires logs != []
  {
    logs[|logs| - 1 := l]
  }

  /** How many items ReadReply takes off a response whose first byte has arrived; 0 while an error reply is incomplete. */
  function ReplySize(L: seq<byte>): nat
    requires L != []
  {
    if L[0] != RESPONSE_ERROR then 1 else if WholeError(L) then 3 + L[2] as int else 0
  }

  function Next(s: State, a: Action): Option<State> {
    match a
    case Open(_, _) => NextOpen(s, a)
    case ClientWrite(b) => NextClientWrite(s, b)
    case ClientReply => NextClientReply(s)
    case ClientRead(n) => NextClientRead(s, n)
    case ClientClose =>
      if s.client.Relaying? then
        Some(s.(c2s := s.c2s + [ZeroChunk], client := Draining(s.client.reply, s.client.sawEof)))
      else None
    case ClientDrain(n) => NextClientDrain(s, n)
    case ClientGone =>
      if s.client.Relaying? || s.client.Draining? then Some(s.(client := Gone(s.client.Draining?))) else None
    case Accept => NextAccept(s)
    case Refuse(code, message, lost) => NextRefuse(s, code, message, lost)
    case ServerRead(n) => NextServerRead(s, n)
    case ServerSend(b) => NextServerSend(s, b)
    case RelayEnds =>
      if s.server.Serving? then Some(s.(server := Ended(s.server.sent, s.server.zeroSeen))) else None
    case Tail => NextTail(s)
    case SendZero => NextSendZero(s)
    case ServerDrain(n) => NextServerDrain(s, n)
  }

  /** DialTCP on an idle connection: the request header. */
  function NextOpen(s: State, a: Action): Option<State>
    requires a.Open?
  {
    if !s.client.Idle? then None
    else
      var l := Log(a.host, a.port, [], []);
      Some(s.(c2s := s.c2s + Items(Head(l)), client := Relaying(false, false), clog := s.clog + [l], taken := 0))
  }

  function NextClientWrite(s: State, b: seq<byte>): Option<State> {
    if !s.client.Relaying? || b == [] || s.clog == [] then None
    else
      var l := Last(s.clog);
      Some(s.(c2s := s.c2s + Items(b), clog := SetLast(s.clog, l.(up := l.up + b))))
  }

  /** The first read of a session; a zero chunk in place of the response reads as end of file. */
  function NextClientReply(s: State): Option<State> {
    if !s.client.Relaying? || s.client.reply || s.client.sawEof || s.s2c == [] then None
    else if s.s2c[0].ZeroChunk? then
      Some(s.(s2c := s.s2c[1..], client := Relaying(false, true), taken := s.taken + 1))
    else
      var L := LeadingBytes(s.s2c);
      var n := ReplySize(L);
      if n > 0 then Some(s.(s2c := s.s2c[n..], client := Relaying(true, false), taken := s.taken + n))
      else if |L| == |s.s2c| then None
      else Some(s.(s2c := s.s2c[|L| + 1..], client := Relaying(true, true), taken := s.taken + |L| + 1))
  }

  /** A relay read behind the response. */
  function NextClientRead(s: State, n: nat): Option<State> {
    if !s.client.Relaying? || !s.client.reply || s.client.sawEof || s.s2c == [] || s.clog == [] then None
    else if s.s2c[0].ZeroChunk? then
      Some(s.(s2c := s.s2c[1..], client := Relaying(true, true), taken := s.taken + 1))
    else
      var L := LeadingBytes(s.s2c);
      if n == 0 || n > |L| then None
      else
        var l := Last(s.clog);
        Some(s.(s2c := s.s2c[n..], clog := SetLast(s.clog, l.(down := l.down + L[..n])), taken := s.taken + n))
  }

  /** One read of drainPendingForReuse; at the zero chunk the connection is pooled, or closed after its last use. */
  function NextClientDrain(s: State, n: nat): Option<State> {
    if !s.client.Draining? || s.s2c == [] then None
    else if s.s2c[0].ZeroChunk? then Some(Drained(s, 1))
    else
      var L := LeadingBytes(s.s2c);
      if s.client.reply then
        if n == 0 || n > |L| then None else Some(s.(s2c := s.s2c[n..], taken := s.taken + n))
      else if L[0] == RESPONSE_TUNNEL || L[0] == RESPONSE_PONG then
        Some(s.(s2c := s.s2c[1..], client := s.client.(reply := true), taken := s.taken + 1))
      else if ReplySize(L) > 0 then Some(s.(client := Gone(true)))
      else if |L| == |s.s2c| then None
      else Some(Drained(s, |L| + 1))
  }

  /** The zero chunk met after k items: back to the pool, or closed after the last use. */
  function Drained(s: State, k: nat): State
    requires k <= |s.s2c|
  {
    s.(s2c := s.s2c[k..], client := if |s.clog| >= MAX_USES then Gone(true) else Idle, taken := s.taken + k)
  }

  /** handleRequest up to a successful dial. */
  function NextAccept(s: State): Option<State> {
    if !s.server.Awaiting? then None
    else match ParseRequest(LeadingBytes(s.c2s))
      case Connect(host, port, reuse, used) =>
        Some(s.(c2s := s.c2s[used..], server := Serving(false, false), slog := s.slog + [Log(host, port, [], [])],
                given := used, reuse := reuse))
      case Short => if |LeadingBytes(s.c2s)| < |s.c2s| then Some(s.(server := Closed)) else None
      case Ping(_) => Some(s.(s2c := s.s2c + [Byte(RESPONSE_PONG)], server := Closed))
      case _ => Some(s.(server := Closed))
  }

  /**
   * The same with a failed dial: an error reply, no drain, and in reuse mode straight back to handleRequest, whose new
   * buffered reader has lost what the old one had read ahead. Behind a header of the client's own that is nothing, as
   * the header is a frame of its own; once the server reads what was left of a refused session it may be anything.
   */
  function NextRefuse(s: State, code: byte, message: seq<byte>, lost: nat): Option<State> {
    if !s.server.Awaiting? || (lost > 0 && !s.refused) then None
    else match ParseRequest(LeadingBytes(s.c2s))
      case Connect(_, _, reuse, used) =>
        if used + lost > |LeadingBytes(s.c2s)| then None
        else Some(s.(c2s := s.c2s[used + lost..], s2c := s.s2c + Items(EncodeError(code, message)),
                     server := if reuse then Awaiting else Closed, refused := true))
      case _ => None
  }

  function NextServerRead(s: State, n: nat): Option<State> {
    if !s.server.Serving? || s.server.zeroSeen || s.c2s == [] || s.slog == [] then None
    else if s.c2s[0].ZeroChunk? then
      Some(s.(c2s := s.c2s[1..], server := Serving(s.server.sent, true), given := s.given + 1))
    else
      var L := LeadingBytes(s.c2s);
      if n == 0 || n > |L| then None
      else
        var l := Last(s.slog);
        Some(s.(c2s := s.c2s[n..], slog := SetLast(s.slog, l.(up := l.up + L[..n])), given := s.given + n))
  }

  /** Upstream data, through lazyResponseStream. */
  function NextServerSend(s: State, b: seq<byte>): Option<State> {
    if !s.server.Serving? || b == [] || s.slog == [] then None
    else
      var l := Last(s.slog);
      Some(s.(s2c := s.s2c + LazyItems(s.server.sent, b), server := Serving(true, s.server.zeroSeen),
              slog := SetLast(s.slog, l.(down := l.down + b))))
  }

  /** Behind the relay: if nothing was ever sent, the tunnel byte and a zero chunk. Without reuse that is the end. */
  function NextTail(s: State): Option<State> {
    if !s.server.Ended? then None
    else Some(s.(s2c := s.s2c + (if s.server.sent then [] else LazyItems(false, [])),
                 server := if s.reuse then Trailer(s.server.zeroSeen) else Closed))
  }

  /** Reuse mode: the server's own zero chunk, then a drain unless the client's was already seen. */
  function NextSendZero(s: State): Option<State> {
    if !s.server.Trailer? then None
    else Some(s.(s2c := s.s2c + LazyItems(true, []), server := if s.server.zeroSeen then Awaiting else DrainingClient))
  }

  function NextServerDrain(s: State, n: nat): Option<State> {
    if !s.server.DrainingClient? || s.c2s == [] then None
    else if s.c2s[0].ZeroChunk? then Some(s.(c2s := s.c2s[1..], server := Awaiting, given := s.given + 1))
    else if n == 0 || n > |LeadingBytes(s.c2s)| then None
    else Some(s.(c2s := s.c2s[n..], given := s.given + n))
  }

  // ---- What every safe run keeps ----

  predicate ClientClosed(c: Client) {
    match c
    case Idle => true
    case Relaying(_, _) => false
    case Draining(_, _) => true
    case Gone(z) => z
  }

  /** All the client puts on the connection for session t; only the newest can still be open. */
  function UpItems(clog: seq<Log>, closed: bool, t: nat): (r: seq<Item>)
    requires t < |clog|
    ensures 6 + |clog[t].host| + |clog[t].up| <= |r| <= 7 + |clog[t].host| + |clog[t].up|
    ensures closed || t + 1 < |clog| ==> |r| == 7 + |clog[t].host| + |clog[t].up|
  {
    Items(Head(clog[t]) + clog[t].up) + (if t + 1 < |clog| || closed then [ZeroChunk] else [])
  }

  /** What the server still has to send before it is back at handleRequest. */
  function Owed(v: Server): seq<Item> {
    match v
    case Ended(sent, _) => if sent then [ZeroChunk] else [Byte(RESPONSE_TUNNEL), ZeroChunk, ZeroChunk]
    case Trailer(_) => [ZeroChunk]
    case _ => []
  }

  /** All the server puts on the connection for a session that relayed d, so far or in the end. */
  function Plan(v: Server, d: seq<byte>): seq<Item> {
    (if v.Serving? && d == [] then [] else Items([RESPONSE_TUNNEL] + d)) +
    (if v.Serving? then [] else if d == [] then [ZeroChunk, ZeroChunk] else [ZeroChunk])
  }

  /** Sessions do not leak into one another: same targets in the same order, and only that session's bytes. */
  predicate Isolated(s: State) {
    && |s.slog| <= |s.clog| <= |s.slog| + 1
    && |s.clog| <= MAX_USES
    && forall t :: 0 <= t < |s.slog| ==>
         && s.slog[t].host == s.clog[t].host && s.slog[t].port == s.clog[t].port
         && s.slog[t].up <= s.clog[t].up
         && s.clog[t].down <= s.slog[t].down
  }

  /** Where the server stands in the client's items. */
  predicate UpInv(s: State)
    requires Isolated(s)
  {
    match s.server
    case Awaiting => if |s.clog| > |s.slog| then s.c2s == UpItems(s.clog, ClientClosed(s.client), |s.slog|) else s.c2s == [] && ClientClosed(s.client)
    case Serving(_, z) => InSession(s, z)
    case Ended(_, z) => InSession(s, z)
    case Trailer(z) => InSession(s, z)
    case DrainingClient =>
      && s.slog != []
      && var cur := |s.slog| - 1;
         var h := 6 + |s.clog[cur].host|;
         && h + |s.slog[cur].up| <= s.given <= h + |s.clog[cur].up|
         && s.c2s == UpItems(s.clog, ClientClosed(s.client), cur)[s.given..] + (if |s.clog| > |s.slog| then UpItems(s.clog, ClientClosed(s.client), cur + 1) else [])
    case _ => true
  }

  predicate InSession(s: State, zeroSeen: bool)
    requires Isolated(s)
  {
    && |s.clog| == |s.slog| > 0
    && var cl, sl := Last(s.clog), Last(s.slog);
       && s.given == 6 + |cl.host| + |sl.up| + (if zeroSeen then 1 else 0)
       && (zeroSeen ==> ClientClosed(s.client) && sl.up == cl.up)
       && s.c2s == UpItems(s.clog, ClientClosed(s.client), |s.clog| - 1)[s.given..]
  }

  /** Where the client stands in the server's items. */
  predicate DownInv(s: State)
    requires Isolated(s)
  {
    match s.client
    case Gone(_) => true
    case Idle => |s.clog| == |s.slog| < MAX_USES && s.s2c == [] && (s.server.Awaiting? || s.server.DrainingClient?)
    case _ =>
      && s.clog != []
      && if |s.clog| > |s.slog| then s.s2c == [] && s.taken == 0 && !s.client.reply && !s.client.sawEof
         else
           && !s.server.Closed?
           && var d := Last(s.slog).down;
              && s.taken <= |Plan(s.server, d)|
              && s.s2c + Owed(s.server) == Plan(s.server, d)[s.taken..]
              && ClientPosition(s.client, s.server.Serving?, s.taken, Last(s.clog).down, d)
  }

  predicate ClientPosition(c: Client, serving: bool, taken: nat, got: seq<byte>, d: seq<byte>)
    requires c.Relaying? || c.Draining?
  {
    if c.sawEof then c.reply && taken == 2 + |d| && got == d && !serving
    else if !c.reply then taken == 0 && got == []
    else if c.Relaying? then taken == 1 + |got|
    else 1 + |got| <= taken <= 1 + |d|
  }

  /** What every run keeps in which no dial fails and connections are pooled only where it is safe. */
  predicate Inv(s: State) {
    && Isolated(s) && !s.refused
    && (|s.clog| > |s.slog| ==> Last(s.clog).down == [])
    && UpInv(s) && DownInv(s)
    && (s.server.Serving? && s.slog != [] ==> s.reuse && (s.server.sent <==> Last(s.slog).down != []))
    && (s.server.Ended? && s.slog != [] ==> s.reuse && (s.server.sent <==> Last(s.slog).down != []))
    && (s.server.Closed? ==> |s.clog| > |s.slog|)
  }

  /** The drain step that puts a connection back in the pool. */
  predicate Pools(s: State, a: Action) {
    a.ClientDrain? && Next(s, a).Some? && Next(s, a).value.client.Idle?
  }

  /** The last session the server took on relayed at least one byte from upstream. */
  predicate UpstreamSpoke(s: State) {
    s.slog != [] && Last(s.slog).down != []
  }

  /** The condition for pooling: upstream said something, or the client's relay itself already read the end of file. */
  predicate SafeToPool(s: State) {
    UpstreamSpoke(s) || (s.client.Draining? && s.client.sawEof)
  }

  lemma OpenKeeps(s: State, a: Action)
    requires Inv(s) && a.Open? && Next(s, a).Some?
    ensures Inv(Next(s, a).value)
  {
    var s' := Next(s, a).value;
    assert s'.clog[..|s.clog|] == s.clog;
    assert Items(Head(Last(s'.clog)) + []) == Items(Head(Last(s'.clog)));
    assert UpItems(s'.clog, ClientClosed(s'.client), |s.clog|) == Items(Head(Last(s'.clog)));
    if s.server.DrainingClient? {
      assert UpItems(s'.clog, ClientClosed(s'.client), |s.slog| - 1) == UpItems(s.clog, ClientClosed(s.client), |s.slog| - 1);
    }
  }

  /** A client that is still open appends x to its session. */
  lemma AppendUp(s: State, s': State, x: seq<Item>)
    requires s.clog != [] && |s'.clog| == |s.clog| && s'.slog == s.slog && s'.server == s.server && s'.given == s.given
    requires s'.c2s == s.c2s + x && !ClientClosed(s.client)
    requires Isolated(s) && Isolated(s') && UpInv(s)
    requires forall t :: 0 <= t < |s.clog| ==> s'.clog[t].host == s.clog[t].host && |s'.clog[t].up| >= |s.clog[t].up|
    requires forall t :: 0 <= t < |s.clog| - 1 ==> UpItems(s'.clog, ClientClosed(s'.client), t) == UpItems(s.clog, ClientClosed(s.client), t)
    requires UpItems(s'.clog, ClientClosed(s'.client), |s.clog| - 1) == UpItems(s.clog, ClientClosed(s.client), |s.clog| - 1) + x
    ensures UpInv(s')
  {
    hide UpItems, ClientClosed, InSession;
    var i := |s.clog| - 1;
    var all := UpItems(s.clog, ClientClosed(s.client), i);
    match s.server
    case Serving(_, z) => AppendInSession(s, s', x, z);
    case Ended(_, z) => AppendInSession(s, s', x, z);
    case Trailer(z) => AppendInSession(s, s', x, z);
    case DrainingClient =>
      if |s.clog| == |s.slog| {
        DropAppend(all, x, s.given);
      }
    case _ =>
  }

  lemma AppendInSession(s: State, s': State, x: seq<Item>, zeroSeen: bool)
    requires Isolated(s) && Isolated(s') && InSession(s, zeroSeen) && !ClientClosed(s.client)
    requires |s'.clog| == |s.clog| && s'.slog == s.slog && s'.given == s.given && s'.c2s == s.c2s + x
    requires s'.clog[|s.clog| - 1].host == s.clog[|s.clog| - 1].host
    requires UpItems(s'.clog, ClientClosed(s'.client), |s.clog| - 1) == UpItems(s.clog, ClientClosed(s.client), |s.clog| - 1) + x
    ensures InSession(s', zeroSeen)
  {
    hide UpItems, ClientClosed;
    var t := |s.clog| - 1;
    assert s.slog[t].up <= s.clog[t].up;
    DropAppend(UpItems(s.clog, ClientClosed(s.client), t), x, s.given);
  }

  /** Bytes written, then possibly the zero chunk: only the newest session's items grow. */
  lemma UpItemsGrow(s: State, s': State, b: seq<byte>)
    requires s.clog != [] && s.client.Relaying?
    requires s'.clog == SetLast(s.clog, Last(s.clog).(up := Last(s.clog).up + b))
    ensures forall t :: 0 <= t < |s.clog| - 1 ==> UpItems(s'.clog, ClientClosed(s'.client), t) == UpItems(s.clog, ClientClosed(s.client), t)
    ensures UpItems(s'.clog, ClientClosed(s'.client), |s.clog| - 1) == UpItems(s.clog, ClientClosed(s.client), |s.clog| - 1) + Items(b) + (if ClientClosed(s'.client) then [ZeroChunk] else [])
  {
    var l := Last(s.clog);
    ItemsAppend(Head(l) + l.up, b);
    assert Head(l.(up := l.up + b)) + (l.up + b) == Head(l) + l.up + b;
  }

  lemma ClientWriteKeeps(s: State, a: Action)
    requires Inv(s) && a.ClientWrite? && Next(s, a).Some?
    ensures Inv(Next(s, a).value)
  {
    hide UpInv, UpItems, Plan, Owed, ClientPosition, LeadingBytes, Head;
    var s' := Next(s, a).value;
    UpItemsGrow(s, s', a.b);
    AppendUp(s, s', Items(a.b));
  }

  /** Reads on the client change nothing the server's position depends on. */
  lemma SameUp(s: State, s': State)
    requires |s'.clog| == |s.clog| && s'.slog == s.slog && s'.c2s == s.c2s && s'.server == s.server && s'.given == s.given
    requires forall t :: 0 <= t < |s.clog| ==> s'.clog[t].(down := s.clog[t].down) == s.clog[t]
    requires ClientClosed(s'.client) == ClientClosed(s.client)
    requires Isolated(s) && Isolated(s')
    ensures UpInv(s) ==> UpInv(s')
  {
    forall t | 0 <= t < |s.clog| ensures UpItems(s'.clog, ClientClosed(s'.client), t) == UpItems(s.clog, ClientClosed(s.client), t) {
      assert s'.clog[t].(down := s.clog[t].down) == s.clog[t];
    }
  }

  /** While a session is on both sides, what the client reads next is what its position in the plan says. */
  lemma NextDown(s: State)
    requires Inv(s) && (s.client.Relaying? || s.client.Draining?) && s.s2c != []
    ensures |s.clog| == |s.slog| && s.slog != []
    ensures var p := Plan(s.server, Last(s.slog).down);
      s.taken < |p| && s.s2c[0] == p[s.taken] && s.s2c + Owed(s.server) == p[s.taken..]
  {
    hide Plan, Owed, UpInv;
    assert (s.s2c + Owed(s.server))[0] == s.s2c[0];
  }

  /** The plan, position by position. */
  lemma PlanAt(v: Server, d: seq<byte>, i: nat)
    requires i < |Plan(v, d)|
    ensures Plan(v, d)[i] == if i == 0 then Byte(RESPONSE_TUNNEL) else if i <= |d| then Byte(d[i - 1]) else ZeroChunk
    ensures i > |d| ==> !v.Serving?
    ensures |Plan(v, d)| == if v.Serving? then (if d == [] then 0 else 1 + |d|) else if d == [] then 3 else 2 + |d|
  {
  }

  lemma ClientReplyKeeps(s: State, a: Action)
    requires Inv(s) && a.ClientReply? && Next(s, a).Some?
    ensures Inv(Next(s, a).value)
  {
    hide LeadingBytes, UpInv, Plan, Owed;
    var s' := Next(s, a).value;
    LeadingAt(s.s2c, 0);
    LeadingAt(s.s2c, |LeadingBytes(s.s2c)|);
    SameUp(s, s');
    NextDown(s);
    PlanAt(s.server, Last(s.slog).down, s.taken);
    DropMore(s.s2c, Owed(s.server), Plan(s.server, Last(s.slog).down), s.taken, 1);
  }

  /** Bytes the client takes are the next bytes of the session's upstream data. */
  lemma {:induction false} TakenBytes(s: State, n: nat)
    requires Inv(s) && s.client.Relaying? && s.client.reply && !s.client.sawEof && s.s2c != []
    requires n <= |LeadingBytes(s.s2c)|
    ensures |s.clog| == |s.slog| > 0
    ensures var got, d := Last(s.clog).down, Last(s.slog).down;
      |got| + n <= |d| && got + LeadingBytes(s.s2c)[..n] == d[..|got| + n]
  {
    hide LeadingBytes, UpInv, Plan, Owed;
    NextDown(s);
    var got, d := Last(s.clog).down, Last(s.slog).down;
    assert s.clog[|s.slog| - 1].down <= s.slog[|s.slog| - 1].down;
    if n > 0 {
      TakenBytes(s, n - 1);
      var p := Plan(s.server, d);
      LeadingAt(s.s2c, n - 1);
      assert s.s2c[n - 1] == (s.s2c + Owed(s.server))[n - 1] == p[s.taken..][n - 1] == p[s.taken + n - 1];
      PlanAt(s.server, d, s.taken + n - 1);
      OneMore(got, LeadingBytes(s.s2c), d, n - 1);
    }
  }

  lemma ClientReadKeeps(s: State, a: Action)
    requires Inv(s) && a.ClientRead? && Next(s, a).Some?
    ensures Inv(Next(s, a).value)
  {
    hide LeadingBytes, UpInv, DownInv, Plan, Owed;
    ClientReadDown(s, a.n);
    SameUp(s, Next(s, a).value);
  }

  lemma ClientReadDown(s: State, n: nat)
    requires Inv(s) && NextClientRead(s, n).Some?
    ensures |s.clog| == |s.slog| && Isolated(NextClientRead(s, n).value) && DownInv(NextClientRead(s, n).value)
  {
    hide LeadingBytes, UpInv, Plan, Owed;
    NextDown(s);
    var d := Last(s.slog).down;
    PlanAt(s.server, d, s.taken);
    if s.s2c[0].ZeroChunk? {
      DropMore(s.s2c, Owed(s.server), Plan(s.server, d), s.taken, 1);
    } else {
      TakenBytes(s, n);
      DropMore(s.s2c, Owed(s.server), Plan(s.server, d), s.taken, n);
    }
  }

  lemma ClientCloseKeeps(s: State, a: Action)
    requires Inv(s) && a.ClientClose? && Next(s, a).Some?
    ensures Inv(Next(s, a).value)
  {
    hide UpInv, UpItems, Plan, Owed, LeadingBytes, Head;
    var s' := Next(s, a).value;
    assert Last(s.clog).up + [] == Last(s.clog).up;
    assert s'.clog == SetLast(s.clog, Last(s.clog));
    UpItemsGrow(s, s', []);
    assert UpItems(s.clog, ClientClosed(s.client), |s.clog| - 1) + Items([]) + [ZeroChunk] == UpItems(s.clog, ClientClosed(s.client), |s.clog| - 1) + [ZeroChunk];
    AppendUp(s, s', [ZeroChunk]);
  }

  lemma ClientGoneKeeps(s: State, a: Action)
    requires Inv(s) && a.ClientGone? && Next(s, a).Some?
    ensures Inv(Next(s, a).value)
  {
    SameUp(s, Next(s, a).value);
  }

  /** A run of bytes in what is left of the plan stays within the relayed data. */
  lemma BytesInPlan(s: State, n: nat)
    requires Inv(s) && s.client.Draining? && s.s2c != []
    requires 0 < n <= |LeadingBytes(s.s2c)|
    ensures |s.clog| == |s.slog| > 0 && s.taken + n <= 1 + |Last(s.slog).down|
  {
    hide LeadingBytes, UpInv, Plan, Owed;
    NextDown(s);
    var p := Plan(s.server, Last(s.slog).down);
    LeadingAt(s.s2c, n - 1);
    assert s.s2c[n - 1] == (s.s2c + Owed(s.server))[n - 1] == p[s.taken..][n - 1] == p[s.taken + n - 1];
    PlanAt(s.server, Last(s.slog).down, s.taken + n - 1);
  }

  lemma DrainStepKeeps(s: State, a: Action)
    requires Inv(s) && a.ClientDrain? && Next(s, a).Some? && !s.s2c[0].ZeroChunk?
    ensures Inv(Next(s, a).value)
  {
    hide LeadingBytes, UpInv, DownInv, Plan, Owed;
    DrainStepDown(s, a.n);
    SameUp(s, Next(s, a).value);
  }

  lemma DrainStepDown(s: State, n: nat)
    requires Inv(s) && NextClientDrain(s, n).Some? && !s.s2c[0].ZeroChunk?
    ensures var s' := NextClientDrain(s, n).value;
      |s.clog| == |s.slog| && Isolated(s') && DownInv(s') && s'.client.Draining?
  {
    hide LeadingBytes, UpInv, Plan, Owed;
    LeadingAt(s.s2c, |LeadingBytes(s.s2c)|);
    LeadingAt(s.s2c, 0);
    NextDown(s);
    var d := Last(s.slog).down;
    PlanAt(s.server, d, s.taken);
    var k := if s.client.reply then n else 1;
    BytesInPlan(s, k);
    assert LeadingBytes(s.s2c)[0] == RESPONSE_TUNNEL || s.client.reply;
    DropMore(s.s2c, Owed(s.server), Plan(s.server, d), s.taken, k);
  }

  /** At the zero chunk that ends a drain: what the server still has for the client afterwards. */
  lemma DrainEndsAt(s: State)
    requires Inv(s) && s.client.Draining? && s.s2c != [] && s.s2c[0].ZeroChunk?
    ensures |s.clog| == |s.slog| > 0 && !s.server.Serving? && !s.server.Closed?
    ensures s.s2c[1..] + Owed(s.server) == if SafeToPool(s) then [] else [ZeroChunk]
    ensures s.client.sawEof ==> !UpstreamSpoke(s)
  {
    hide LeadingBytes, UpInv;
    NextDown(s);
    var d := Last(s.slog).down;
    PlanAt(s.server, d, s.taken);
    DropMore(s.s2c, Owed(s.server), Plan(s.server, d), s.taken, 1);
  }

  lemma DrainedKeeps(s: State, a: Action)
    requires Inv(s) && a.ClientDrain? && Next(s, a).Some? && s.s2c[0].ZeroChunk?
    requires Pools(s, a) ==> SafeToPool(s)
    ensures Inv(Next(s, a).value)
  {
    hide LeadingBytes, UpInv, Plan;
    var s' := Next(s, a).value;
    DrainEndsAt(s);
    SameUp(s, s');
  }

  /**
   * Exactly when pooling a drained connection is safe: it leaves nothing unread and nothing owed, and keeps every
   * invariant, if and only if the session relayed upstream bytes or the client's relay had itself read the end of file.
   */
  lemma PoolingIsSafeExactly(s: State, a: Action)
    requires Inv(s) && Pools(s, a)
    ensures Inv(Next(s, a).value) <==> SafeToPool(s)
    ensures Next(s, a).value.s2c + Owed(Next(s, a).value.server) == [] <==> SafeToPool(s)
  {
    hide LeadingBytes, UpInv, Plan;
    var s' := Next(s, a).value;
    PoolsAtZero(s, a);
    DrainEndsAt(s);
    if SafeToPool(s) {
      DrainedKeeps(s, a);
    } else {
      assert s'.s2c + Owed(s'.server) != [];
      assert Inv(s') ==> s'.s2c == [] && Owed(s'.server) == [];
    }
  }

  /** A connection whose relay ended because the server half-closed after real data has no zero chunk left to drain to. */
  lemma SeenEofIsNotPooled(s: State, a: Action)
    requires Inv(s) && s.client.Draining? && s.client.sawEof && UpstreamSpoke(s)
    ensures !Pools(s, a)
  {
    if Pools(s, a) {
      PoolsAtZero(s, a);
      DrainEndsAt(s);
    }
  }

  /** While the invariant holds a drain ends only at a zero chunk that is next. */
  lemma PoolsAtZero(s: State, a: Action)
    requires Inv(s) && Pools(s, a)
    ensures s.client.Draining? && s.s2c != [] && s.s2c[0].ZeroChunk?
  {
    hide LeadingBytes, UpInv, Plan, Owed;
    LeadingAt(s.s2c, |LeadingBytes(s.s2c)|);
    LeadingAt(s.s2c, 0);
    NextDown(s);
    PlanAt(s.server, Last(s.slog).down, s.taken);
  }

  /**
   * The first read of a session is ReadReply: over any stream with these items pending it has a step exactly when
   * ReadReply does not fail, and then leaves the reply flag and the rest of the stream that ReadReply leaves, having
   * seen the end of file exactly when ReadReply met the zero chunk.
   */
  lemma ReplyRefines(s: State, st: Stream)
    requires s.client == Relaying(false, false) && Flatten(st.chunks) == s.s2c
    ensures var (r, reply, st') := TakeReply(false, st);
      && (Next(s, ClientReply).None? <==> r.NoReply? && r.cause.Failed?)
      && (Next(s, ClientReply).Some? ==>
            var s' := Next(s, ClientReply).value;
            s'.client == Relaying(reply, r == NoReply(HalfClosed)) && s'.s2c == Flatten(st'.chunks))
  {
    hide LeadingBytes, TakeReply, Flatten;
    ReplyOutcome(st);
    LeadingAt(s.s2c, 0);
  }

  /**
   * The drain of this model is the drain of PoolConn.Close: every step keeps whether the drain will succeed and what it
   * will leave, a step that ends it ends it accordingly, and a drain that will succeed always has a step to take.
   */
  lemma DrainRefines(s: State, n: nat)
    requires s.client.Draining?
    ensures Next(s, ClientDrain(n)).Some? ==>
      var s' := Next(s, ClientDrain(n)).value;
      if s'.client.Draining? then
        && Drainable(s'.client.reply, s'.s2c) == Drainable(s.client.reply, s.s2c)
        && AfterZeroChunk(s'.s2c) == AfterZeroChunk(s.s2c)
        && |s'.s2c| < |s.s2c|
      else if s'.s2c == s.s2c then s'.client == Gone(true) && !Drainable(s.client.reply, s.s2c)
      else Drainable(s.client.reply, s.s2c) && s'.s2c == AfterZeroChunk(s.s2c)
    ensures Drainable(s.client.reply, s.s2c) && (n == 1 || s.s2c[0].ZeroChunk?) ==> Next(s, ClientDrain(n)).Some?
  {
    hide LeadingBytes, AfterZeroChunk;
    LeadingAt(s.s2c, 0);
    AfterZeroChunkAt(s.s2c);
    if s.client.reply {
      SkipLeading(s.s2c, n);
    } else {
      SkipLeading(s.s2c, 1);
    }
  }

  /** Likewise the server's drain is the one of handleTCP: it ends right behind the client's zero chunk. */
  lemma ServerDrainRefines(s: State, n: nat)
    requires NextServerDrain(s, n).Some?
    ensures var s' := NextServerDrain(s, n).value;
      if s'.server.Awaiting? then s'.c2s == AfterZeroChunk(s.c2s)
      else s'.server == s.server && AfterZeroChunk(s'.c2s) == AfterZeroChunk(s.c2s) && |s'.c2s| < |s.c2s|
  {
    hide LeadingBytes, AfterZeroChunk;
    AfterZeroChunkAt(s.c2s);
    SkipLeading(s.c2s, n);
  }

  lemma AfterZeroChunkAt(p: seq<Item>)
    ensures |LeadingBytes(p)| < |p| ==> AfterZeroChunk(p) == p[|LeadingBytes(p)| + 1..]
    ensures p != [] && p[0].ZeroChunk? ==> LeadingBytes(p) == []
  {
  }

  /** Taking leading bytes off changes neither whether a zero chunk follows nor what is behind it. */
  lemma SkipLeading(p: seq<Item>, k: nat)
    ensures k <= |LeadingBytes(p)| ==>
      && LeadingBytes(p[k..]) == LeadingBytes(p)[k..]
      && AfterZeroChunk(p[k..]) == AfterZeroChunk(p)
  {
    hide LeadingBytes;
    var L := LeadingBytes(p);
    if k <= |L| {
      LeadingTake(p, k);
      LeadingBytesOf(L[..k], p[k..]);
      assert L == L[..k] + LeadingBytes(p[k..]);
      assert |L| < |p| ==> p[k..][|L| - k + 1..] == p[|L| + 1..];
    }
  }

  /** All a client has put on the connection for a session, parsed: its own header, whatever follows. */
  lemma SessionParses(s: State)
    requires |s.clog| > |s.slog|
    ensures var l := s.clog[|s.slog|];
      && LeadingBytes(UpItems(s.clog, ClientClosed(s.client), |s.slog|)) == Head(l) + l.up
      && ParseRequest(Head(l) + l.up) == if l.host == [] then Reject(EmptyHost) else Connect(l.host, l.port, true, |Head(l)|)
  {
    var l := s.clog[|s.slog|];
    var tail := if |s.slog| + 1 < |s.clog| || ClientClosed(s.client) then [ZeroChunk] else [];
    LeadingBytesOf(Head(l) + l.up, tail);
    assert LeadingBytes(tail) == [];
    if l.host == [] {
      EmptyHostRefused(l.port, true, l.up);
    } else {
      ConnectRoundTrip(l.host, l.port, true, l.up);
    }
  }

  lemma AcceptKeeps(s: State, a: Action)
    requires Inv(s) && a.Accept? && Next(s, a).Some?
    ensures Inv(Next(s, a).value)
  {
    hide LeadingBytes, ParseRequest, Head, UpItems, WholeError;
    EmptyIsShort();
    if |s.clog| > |s.slog| {
      SessionParses(s);
    }
  }

  lemma EmptyIsShort()
    ensures LeadingBytes([]) == [] && ParseRequest([]).Short?
  {
  }

  /** What the server reads next in a session it is in. */
  lemma NextUp(s: State, i: nat)
    requires Inv(s) && s.server.Serving? && !s.server.zeroSeen && i < |s.c2s|
    ensures |s.clog| == |s.slog| > 0
    ensures var cl, sl := Last(s.clog), Last(s.slog);
      && |sl.up| + i <= |cl.up|
      && s.c2s[i] == (if |sl.up| + i < |cl.up| then Byte(cl.up[|sl.up| + i]) else ZeroChunk)
      && (|sl.up| + i == |cl.up| ==> ClientClosed(s.client))
      && sl.up <= cl.up
  {
    var t := |s.clog| - 1;
    var cl, sl := s.clog[t], s.slog[t];
    var all := UpItems(s.clog, ClientClosed(s.client), t);
    assert s.c2s[i] == all[s.given..][i] == all[s.given + i];
    assert sl.up <= cl.up;
  }

  lemma {:induction false} GivenBytes(s: State, n: nat)
    requires Inv(s) && s.server.Serving? && !s.server.zeroSeen && n <= |LeadingBytes(s.c2s)|
    ensures |s.clog| == |s.slog| > 0
    ensures var cl, sl := Last(s.clog), Last(s.slog);
      |sl.up| + n <= |cl.up| && sl.up + LeadingBytes(s.c2s)[..n] == cl.up[..|sl.up| + n]
  {
    hide LeadingBytes, DownInv;
    var t := |s.clog| - 1;
    assert s.slog[t].up <= s.clog[t].up;
    if n > 0 {
      GivenBytes(s, n - 1);
      LeadingAt(s.c2s, n - 1);
      NextUp(s, n - 1);
      OneMore(s.slog[t].up, LeadingBytes(s.c2s), s.clog[t].up, n - 1);
    }
  }

  lemma ServerReadKeeps(s: State, a: Action)
    requires Inv(s) && a.ServerRead? && Next(s, a).Some?
    ensures Inv(Next(s, a).value)
  {
    hide LeadingBytes, Plan, ClientPosition, UpItems, UpInv, Owed;
    var s' := Next(s, a).value;
    ServerReadUp(s, a.n);
    SameOwed(s.server, s'.server);
    SameDown(s, s');
  }

  lemma SameOwed(v: Server, w: Server)
    requires v.Serving? && w.Serving?
    ensures Owed(v) == Owed(w) && forall d :: Plan(v, d) == Plan(w, d)
  {
  }

  lemma ServerReadUp(s: State, n: nat)
    requires Inv(s) && NextServerRead(s, n).Some?
    ensures var s' := NextServerRead(s, n).value;
      && Isolated(s') && UpInv(s')
      && |s.clog| == |s.slog| > 0
      && Last(s'.slog) == Last(s.slog).(up := Last(s'.slog).up)
  {
    hide LeadingBytes, DownInv, UpItems;
    var s' := NextServerRead(s, n).value;
    var t := |s.clog| - 1;
    var all := UpItems(s.clog, ClientClosed(s.client), t);
    NextUp(s, 0);
    if s.c2s[0].Byte? {
      GivenBytes(s, n);
    }
    assert all[s.given..][if s.c2s[0].ZeroChunk? then 1 else n..] == all[s'.given..];
  }

  /** Server steps that send nothing leave the client's position alone. */
  lemma SameDown(s: State, s': State)
    requires s'.s2c == s.s2c && s'.client == s.client && s'.clog == s.clog && s'.taken == s.taken
    requires |s'.slog| == |s.slog| && (s.slog != [] ==> Last(s'.slog).down == Last(s.slog).down)
    requires Isolated(s) && Isolated(s') && DownInv(s)
    requires s.clog != [] && s.slog != [] && !s'.server.Closed?
    requires s.client.Idle? ==> s'.server.Awaiting? || s'.server.DrainingClient?
    requires Owed(s'.server) == Owed(s.server) && s'.server.Serving? == s.server.Serving?
    ensures DownInv(s')
  {
  }

  lemma ServerSendKeeps(s: State, a: Action)
    requires Inv(s) && a.ServerSend? && Next(s, a).Some?
    ensures Inv(Next(s, a).value)
  {
    hide LeadingBytes, UpItems, Plan, LazyItems, Owed;
    var s' := Next(s, a).value;
    var t := |s.clog| - 1;
    assert s.clog[t].down <= s.slog[t].down;
    if !s.client.Gone? {
      SendDown(s, a.b);
    }
  }

  lemma SendDown(s: State, b: seq<byte>)
    requires Inv(s) && s.server.Serving? && b != [] && !s.client.Gone?
    ensures s.slog != []
    ensures var d := Last(s.slog).down;
      var v := Serving(true, s.server.zeroSeen);
      && s.taken <= |Plan(v, d + b)|
      && s.s2c + LazyItems(s.server.sent, b) + Owed(v) == Plan(v, d + b)[s.taken..]
  {
    hide LeadingBytes, UpItems, Plan, LazyItems, ClientPosition;
    var d := Last(s.slog).down;
    PlanGrows(s.server, d, b);
    DropAppend(Plan(s.server, d), LazyItems(s.server.sent, b), s.taken);
  }

  lemma PlanGrows(v: Server, d: seq<byte>, b: seq<byte>)
    requires v.Serving? && (v.sent <==> d != []) && b != []
    ensures Plan(Serving(true, v.zeroSeen), d + b) == Plan(v, d) + LazyItems(v.sent, b)
  {
    ItemsAppend([RESPONSE_TUNNEL] + d, b);
    assert [RESPONSE_TUNNEL] + (d + b) == [RESPONSE_TUNNEL] + d + b;
  }

  /** Once the relay has ended, what was sent and what is owed make up the whole plan. */
  lemma PlanEnds(v: Server, d: seq<byte>)
    requires v.Serving? && (v.sent <==> d != [])
    ensures Plan(Ended(v.sent, v.zeroSeen), d) == Plan(v, d) + Owed(Ended(v.sent, v.zeroSeen))
  {
    assert Items([RESPONSE_TUNNEL] + []) == [Byte(RESPONSE_TUNNEL)];
  }

  lemma RelayEndsKeeps(s: State, a: Action)
    requires Inv(s) && a.RelayEnds? && Next(s, a).Some?
    ensures Inv(Next(s, a).value)
  {
    hide LeadingBytes, UpItems, Plan;
    var s' := Next(s, a).value;
    var d := Last(s.slog).down;
    PlanEnds(s.server, d);
    if !s.client.Gone? {
      DropAppend(Plan(s.server, d), Owed(s'.server), s.taken);
    }
  }

  lemma TailKeeps(s: State, a: Action)
    requires Inv(s) && a.Tail? && Next(s, a).Some?
    ensures Inv(Next(s, a).value)
  {
    hide LeadingBytes, UpItems, ClientPosition;
    var s' := Next(s, a).value;
    assert s'.s2c + Owed(s'.server) == s.s2c + Owed(s.server);
  }

  lemma SendZeroKeeps(s: State, a: Action)
    requires Inv(s) && a.SendZero? && Next(s, a).Some?
    ensures Inv(Next(s, a).value)
  {
    hide LeadingBytes, UpItems, ClientPosition, Head;
    var s' := Next(s, a).value;
    var t := |s.clog| - 1;
    assert s'.s2c + Owed(s'.server) == s.s2c + Owed(s.server);
    assert s.slog[t].up <= s.clog[t].up;
    if s.server.zeroSeen {
    } else {
      assert UpItems(s.clog, ClientClosed(s.client), t)[s.given..] + [] == UpItems(s.clog, ClientClosed(s.client), t)[s.given..];
    }
  }

  /** What the server still has to drain: m bytes of the session, then its zero chunk, then the next session. */
  lemma LeftToDrain(s: State, m: nat)
    requires Inv(s) && s.server.DrainingClient?
    requires m == 6 + |s.clog[|s.slog| - 1].host| + |s.clog[|s.slog| - 1].up| - s.given
    ensures m <= |s.c2s|
    ensures m < |s.c2s| ==> s.c2s[m] == ZeroChunk
    ensures m == 0 && s.c2s != [] ==>
      && (|s.clog| == |s.slog| ==> ClientClosed(s.client))
      && s.c2s[1..] == if |s.clog| > |s.slog| then UpItems(s.clog, ClientClosed(s.client), |s.slog|) else []
  {
    hide DownInv;
    var cur := |s.slog| - 1;
    var bytes := Items(Head(s.clog[cur]) + s.clog[cur].up);
    var zero := if cur + 1 < |s.clog| || ClientClosed(s.client) then [ZeroChunk] else [];
    DropAppend(bytes, zero, s.given);
    assert UpItems(s.clog, ClientClosed(s.client), cur)[s.given..] == bytes[s.given..] + zero;
  }

  lemma ServerDrainKeeps(s: State, a: Action)
    requires Inv(s) && a.ServerDrain? && Next(s, a).Some?
    ensures Inv(Next(s, a).value)
  {
    hide LeadingBytes, Plan, ClientPosition, UpItems, UpInv;
    ServerDrainUp(s, a.n);
    SameDown(s, Next(s, a).value);
  }

  lemma ServerDrainUp(s: State, n: nat)
    requires Inv(s) && NextServerDrain(s, n).Some?
    ensures s.slog != [] && Isolated(NextServerDrain(s, n).value) && UpInv(NextServerDrain(s, n).value)
  {
    hide LeadingBytes, UpItems, UpInv, DownInv;
    assert s.slog != [] by {
      DrainedBehind(s);
    }
    if s.c2s[0].Byte? {
      ServerDrainBytes(s, n);
    } else {
      ServerDrainZero(s, n);
    }
  }

  lemma DrainedBehind(s: State)
    requires Inv(s) && s.server.DrainingClient?
    ensures s.slog != []
  {
    hide UpItems, DownInv;
  }

  lemma ServerDrainZero(s: State, n: nat)
    requires Inv(s) && NextServerDrain(s, n).Some? && s.c2s[0].ZeroChunk?
    ensures s.slog != [] && UpInv(NextServerDrain(s, n).value)
  {
    hide LeadingBytes, UpItems, DownInv;
    var cur := |s.slog| - 1;
    var m := 6 + |s.clog[cur].host| + |s.clog[cur].up| - s.given;
    LeftToDrain(s, m);
    if m > 0 {
      FirstLeft(s);
    }
  }

  lemma ServerDrainBytes(s: State, n: nat)
    requires Inv(s) && NextServerDrain(s, n).Some? && s.c2s[0].Byte?
    ensures s.slog != [] && UpInv(NextServerDrain(s, n).value)
  {
    hide LeadingBytes, UpItems, DownInv;
    var cur := |s.slog| - 1;
    var m := 6 + |s.clog[cur].host| + |s.clog[cur].up| - s.given;
    LeftToDrain(s, m);
    if m < n {
      LeadingAt(s.c2s, m);
    }
    var all := UpItems(s.clog, ClientClosed(s.client), cur);
    DropAppend(all[s.given..], if |s.clog| > |s.slog| then UpItems(s.clog, ClientClosed(s.client), cur + 1) else [], n);
    assert all[s.given..][n..] == all[s.given + n..];
  }

  lemma FirstLeft(s: State)
    requires Inv(s) && s.server.DrainingClient?
    requires s.given < 6 + |s.clog[|s.slog| - 1].host| + |s.clog[|s.slog| - 1].up|
    ensures s.c2s != [] && s.c2s[0].Byte?
  {
    hide DownInv;
    assert UpItems(s.clog, ClientClosed(s.client), |s.slog| - 1)[s.given].Byte?;
  }

  /** Every step but a failed dial keeps the invariant, provided a connection is pooled only when it is safe to. */
  lemma StepKeeps(s: State, a: Action)
    requires Inv(s) && Next(s, a).Some? && !a.Refuse?
    requires Pools(s, a) ==> SafeToPool(s)
    ensures Inv(Next(s, a).value)
  {
    hide Inv, Next, Pools, SafeToPool;
    match a
    case Open(_, _) => OpenKeeps(s, a);
    case ClientWrite(_) => ClientWriteKeeps(s, a);
    case ClientReply => ClientReplyKeeps(s, a);
    case ClientRead(_) => ClientReadKeeps(s, a);
    case ClientClose => ClientCloseKeeps(s, a);
    case ClientDrain(_) =>
      DrainHasInput(s, a);
      if s.s2c[0].ZeroChunk? {
        DrainedKeeps(s, a);
      } else {
        DrainStepKeeps(s, a);
      }
    case ClientGone => ClientGoneKeeps(s, a);
    case Accept => AcceptKeeps(s, a);
    case ServerRead(_) => ServerReadKeeps(s, a);
    case ServerSend(_) => ServerSendKeeps(s, a);
    case RelayEnds => RelayEndsKeeps(s, a);
    case Tail => TailKeeps(s, a);
    case SendZero => SendZeroKeeps(s, a);
    case ServerDrain(_) => ServerDrainKeeps(s, a);
  }

  lemma DrainHasInput(s: State, a: Action)
    requires a.ClientDrain? && Next(s, a).Some?
    ensures s.s2c != []
  {
  }

  /** A run of enabled actions in which dials succeed and that pools only where it is safe. */
  predicate SafeRun(s: State, actions: seq<Action>)
    decreases |actions|
  {
    actions == [] ||
    (&& Next(s, actions[0]).Some? && !actions[0].Refuse?
     && (Pools(s, actions[0]) ==> SafeToPool(s))
     && SafeRun(Next(s, actions[0]).value, actions[1..]))
  }

  function Run(s: State, actions: seq<Action>): Option<State>
    decreases |actions|
  {
    if actions == [] then Some(s)
    else if Next(s, actions[0]).None? then None
    else Run(Next(s, actions[0]).value, actions[1..])
  }

  lemma {:induction false} SafeRunKeeps(s: State, actions: seq<Action>)
    requires Inv(s) && SafeRun(s, actions)
    ensures Run(s, actions).Some? && Inv(Run(s, actions).value)
    decreases |actions|
  {
    hide Inv, Next, Pools, SafeToPool;
    if actions != [] {
      StepKeeps(s, actions[0]);
      SafeRunKeeps(Next(s, actions[0]).value, actions[1..]);
    }
  }

  /**
   * Reuse safety, in every safe run from a fresh connection. Sessions stay apart on both sides. A pooled connection has
   * nothing unread or owed. When the server is between requests, the next thing it reads is the header of the client's
   * newest session, which it parses to that session's target.
   */
  lemma ReuseSafety(actions: seq<Action>)
    requires SafeRun(INIT, actions)
    ensures Run(INIT, actions).Some?
    ensures var s := Run(INIT, actions).value;
      && Isolated(s)
      && (s.client.Idle? ==> s.s2c == [] && Owed(s.server) == [])
      && (s.server.Awaiting? && s.c2s != [] ==>
            && |s.clog| == |s.slog| + 1
            && var l := Last(s.clog);
               ParseRequest(LeadingBytes(s.c2s)) == if l.host == [] then Reject(EmptyHost)
                                                    else Connect(l.host, l.port, true, |Head(l)|))
  {
    InitInv();
    SafeRunKeeps(INIT, actions);
    AtRest(Run(INIT, actions).value);
  }

  lemma InitInv()
    ensures Inv(INIT)
  {
  }

  lemma AtRest(s: State)
    requires Inv(s)
    ensures s.client.Idle? ==> s.s2c == [] && Owed(s.server) == []
    ensures s.server.Awaiting? && s.c2s != [] ==>
      && |s.clog| == |s.slog| + 1
      && var l := Last(s.clog);
         ParseRequest(LeadingBytes(s.c2s)) == if l.host == [] then Reject(EmptyHost)
                                              else Connect(l.host, l.port, true, |Head(l)|)
  {
    hide ParseRequest, LeadingBytes;
    if s.server.Awaiting? && s.c2s != [] {
      SessionParses(s);
    }
  }

  lemma RunCons(s: State, a: Action, rest: seq<Action>, all: seq<Action>)
    requires Next(s, a).Some? && all == [a] + rest
    ensures Run(s, all) == Run(Next(s, a).value, rest)
  {
    assert all[1..] == rest;
  }

  /** A first session in which upstream closes without sending a byte, up to the moment the client starts to drain. */
  lemma SilentSession(h: Host, port: uint16)
    requires h != []
    ensures var l := Log(h, port, [], []);
      Run(INIT, [Open(h, port), Accept, RelayEnds, Tail, SendZero, ClientClose])
      == Some(State([ZeroChunk], [Byte(RESPONSE_TUNNEL), ZeroChunk, ZeroChunk], Draining(false, false), DrainingClient,
                    [l], [l], 0, |Head(l)|, true, false))
  {
    hide LeadingBytes, ParseRequest, Run, LazyItems;
    var l := Log(h, port, [], []);
    assert Head(l) + [] == Head(l) && [] + [l] == [l];
    var s1 := State(Items(Head(l)), [], Relaying(false, false), Awaiting, [l], [], 0, 0, true, false);
    assert [] + Items(Head(l)) == s1.c2s;
    assert Next(INIT, Open(h, port)) == Some(s1);
    RunCons(INIT, Open(h, port), [Accept, RelayEnds, Tail, SendZero, ClientClose], [Open(h, port), Accept, RelayEnds, Tail, SendZero, ClientClose]);
    assert UpItems(s1.clog, ClientClosed(s1.client), 0) == s1.c2s;
    SessionParses(s1);
    var s2 := State([], [], Relaying(false, false), Serving(false, false), [l], [l], 0, |Head(l)|, true, false);
    assert s1.c2s[|Head(l)|..] == [];
    assert Next(s1, Accept) == Some(s2);
    RunCons(s1, Accept, [RelayEnds, Tail, SendZero, ClientClose], [Accept, RelayEnds, Tail, SendZero, ClientClose]);
    SilentTail(s2);
  }

  lemma SilentTail(s: State)
    requires s.reuse && s.server == Serving(false, false) && s.client == Relaying(false, false) && s.s2c == s.c2s == []
    ensures Run(s, [RelayEnds, Tail, SendZero, ClientClose])
      == Some(s.(c2s := [ZeroChunk], s2c := [Byte(RESPONSE_TUNNEL), ZeroChunk, ZeroChunk],
                 client := Draining(false, false), server := DrainingClient))
  {
    hide Run;
    var s1 := Next(s, RelayEnds).value;
    var s2 := Next(s1, Tail).value;
    var s3 := Next(s2, SendZero).value;
    var s4 := Next(s3, ClientClose).value;
    RunCons(s, RelayEnds, [Tail, SendZero, ClientClose], [RelayEnds, Tail, SendZero, ClientClose]);
    RunCons(s1, Tail, [SendZero, ClientClose], [Tail, SendZero, ClientClose]);
    RunCons(s2, SendZero, [ClientClose], [SendZero, ClientClose]);
    RunCons(s3, ClientClose, [], [ClientClose]);
    RunNothing(s4);
    assert s3.s2c == [Byte(RESPONSE_TUNNEL), ZeroChunk, ZeroChunk] && s4.c2s == [ZeroChunk];
  }

  lemma RunNothing(s: State)
    ensures Run(s, []) == Some(s)
  {
  }

  /**
   * The unsafe case does occur. Upstream closes without a byte, the client closes first and drains up to the first of
   * the server's two zero chunks: the connection is pooled with the second one unread, and the first read of the next
   * session, made before the server has even seen its request, is end of file.
   */
  lemma StaleZeroChunk(h: Host, port: uint16)
    requires h != []
    ensures var s := Run(INIT, [Open(h, port), Accept, RelayEnds, Tail, SendZero, ClientClose]);
      && s.Some?
      && var p := Run(s.value, [ClientDrain(1), ClientDrain(1)]);
         && p.Some? && p.value.client.Idle? && p.value.s2c == [ZeroChunk]
         && var n := Run(p.value, [Open(h, port), ClientReply]);
            n.Some? && n.value.client == Relaying(false, true) && |n.value.clog| == 2 && |n.value.slog| == 1
  {
    hide Run;
    SilentSession(h, port);
    var s := Run(INIT, [Open(h, port), Accept, RelayEnds, Tail, SendZero, ClientClose]).value;
    LeadingAt(s.s2c, 0);
    assert LeadingBytes(s.s2c) == [RESPONSE_TUNNEL] by {
      LeadingBytesOf([RESPONSE_TUNNEL], [ZeroChunk, ZeroChunk]);
      assert Items([RESPONSE_TUNNEL]) + [ZeroChunk, ZeroChunk] == s.s2c;
    }
    var s1 := Next(s, ClientDrain(1)).value;
    var p := Next(s1, ClientDrain(1)).value;
    RunCons(s, ClientDrain(1), [ClientDrain(1)], [ClientDrain(1), ClientDrain(1)]);
    RunCons(s1, ClientDrain(1), [], [ClientDrain(1)]);
    RunNothing(p);
    var s2 := Next(p, Open(h, port)).value;
    var n := Next(s2, ClientReply).value;
    RunCons(p, Open(h, port), [ClientReply], [Open(h, port), ClientReply]);
    RunCons(s2, ClientReply, [], [ClientReply]);
    RunNothing(n);
  }
}
