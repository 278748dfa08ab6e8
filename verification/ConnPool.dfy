/** The client's pool of reusable connections, and where every connection it ever made is. Times are in nanoseconds. */
module ConnPool {
  import opened Bytes

  const MAX_SIZE: nat := 10
  const MAX_AGE: int := 15_000_000_000
  const MAX_USES: nat := 2

  type ConnId = nat

  datatype Pooled = Pooled(conn: ConnId, expiresAt: int, uses: nat)

  /** Where a connection is, and how many sessions it has served. */
  datatype Place = CheckedOut(sessions: nat) | Idle(sessions: nat) | Closed(sessions: nat)

  predicate SortedByExpiry(items: seq<Pooled>) {
    forall i, j :: 0 <= i < j < |items| ==> items[i].expiresAt <= items[j].expiresAt
  }

  predicate Distinct(items: seq<Pooled>) {
    forall i, j :: 0 <= i < j < |items| ==> items[i].conn != items[j].conn
  }

  function Conns(items: seq<Pooled>): set<ConnId> {
    set p <- items :: p.conn
  }

  /**
   * The connections made so far are exactly those with a place; the idle ones are exactly the pool's items, once each,
   * at most ten and after one session; nothing has served more than two; and the pool is sorted by expiry.
   */
  ghost predicate Conserved(items: seq<Pooled>, made: nat, place: map<ConnId, Place>, clock: int) {
    && (forall c :: c in place <==> 0 <= c < made)
    && (forall c <- place :: place[c].Idle? <==> c in Conns(items))
    && Distinct(items)
    && |items| <= MAX_SIZE
    && (forall p <- items :: p.uses == 1 && p.conn in place && place[p.conn] == Idle(1) && p.expiresAt <= clock + MAX_AGE)
    && (forall c <- place :: 1 <= place[c].sessions <= MAX_USES)
    && SortedByExpiry(items)
  }

  /** The length of the list up to its last live item: takeIdle returns that item and closes what is behind it. */
  function LiveLength(items: seq<Pooled>, now: int): (n: nat)
    ensures n <= |items|
    ensures n > 0 ==> now < items[n - 1].expiresAt
    ensures forall i :: n <= i < |items| ==> now >= items[i].expiresAt
  {
    if items == [] then 0
    else if now < items[|items| - 1].expiresAt then |items|
    else LiveLength(items[..|items| - 1], now)
  }

  /** On a list sorted by expiry takeIdle pops exactly the latest-expiring item, which is live, or closes them all. */
  lemma TakesLatestOrClosesAll(items: seq<Pooled>, now: int)
    requires SortedByExpiry(items)
    ensures LiveLength(items, now) == |items| || LiveLength(items, now) == 0
    ensures LiveLength(items, now) == 0 <==> forall p <- items :: now >= p.expiresAt
    ensures LiveLength(items, now) > 0 ==> forall p <- items :: p.expiresAt <= items[|items| - 1].expiresAt
  {
    var n := LiveLength(items, now);
    assert n > 0 ==> items[n - 1] in items;
  }

  lemma AppendConn(items: seq<Pooled>, p: Pooled)
    ensures Conns(items + [p]) == Conns(items) + {p.conn}
  {
    assert forall q :: q in items + [p] <==> q in items || q == p;
  }

  /** Taking the last item off the pool and putting its connection elsewhere. */
  lemma PopKeeps(items: seq<Pooled>, made: nat, place: map<ConnId, Place>, clock: int, to: Place)
    requires Conserved(items, made, place, clock) && items != []
    requires !to.Idle? && 1 <= to.sessions <= MAX_USES
    ensures Conserved(items[..|items| - 1], made, place[items[|items| - 1].conn := to], clock)
  {
    var rest, last := items[..|items| - 1], items[|items| - 1];
    assert items == rest + [last];
    AppendConn(rest, last);
    assert last in items;
    assert last.conn !in Conns(rest);
    forall p <- rest ensures p in items && p.conn != last.conn {
      assert p.conn in Conns(rest);
    }
  }

  lemma PushKeeps(items: seq<Pooled>, made: nat, place: map<ConnId, Place>, clock: int, conn: ConnId)
    requires Conserved(items, made, place, clock) && |items| < MAX_SIZE
    requires conn in place && place[conn] == CheckedOut(1)
    ensures Conserved(items + [Pooled(conn, clock + MAX_AGE, 1)], made, place[conn := Idle(1)], clock)
  {
    var p := Pooled(conn, clock + MAX_AGE, 1);
    AppendConn(items, p);
    assert conn !in Conns(items);
    forall q <- items ensures q.conn != conn {
      assert q.conn in Conns(items);
    }
    forall i, j | 0 <= i < j < |items + [p]| ensures (items + [p])[i].expiresAt <= (items + [p])[j].expiresAt {
      assert items[i] in items;
    }
  }

  lemma MoveKeeps(items: seq<Pooled>, made: nat, place: map<ConnId, Place>, clock: int, conn: ConnId, to: Place)
    requires Conserved(items, made, place, clock)
    requires conn in place && !place[conn].Idle? && !to.Idle? && 1 <= to.sessions <= MAX_USES
    ensures Conserved(items, made, place[conn := to], clock)
  {
    forall q <- items ensures q.conn != conn {
      assert q.conn in Conns(items);
    }
  }

  lemma DialKeeps(items: seq<Pooled>, made: nat, place: map<ConnId, Place>, clock: int)
    requires Conserved(items, made, place, clock)
    ensures Conserved(items, made + 1, place[made := CheckedOut(1)], clock)
  {
    forall q <- items ensures q.conn != made {
      assert q.conn in place;
    }
    assert made !in Conns(items);
  }

  /** Closing the connections of the given items. */
  function CloseAll(place: map<ConnId, Place>, expired: seq<Pooled>): map<ConnId, Place>
    decreases |expired|
  {
    if expired == [] then place
    else CloseAll(place[expired[|expired| - 1].conn := Closed(expired[|expired| - 1].uses)], expired[..|expired| - 1])
  }

  /** It closes exactly those, each after the sessions it had served, and leaves every other connection where it was. */
  lemma {:induction false} ClosesExactly(place: map<ConnId, Place>, expired: seq<Pooled>, c: ConnId)
    requires Distinct(expired)
    ensures c in CloseAll(place, expired) <==> c in place || c in Conns(expired)
    ensures c in place && c !in Conns(expired) ==> CloseAll(place, expired)[c] == place[c]
    ensures forall p <- expired :: p.conn == c ==> c in CloseAll(place, expired) && CloseAll(place, expired)[c] == Closed(p.uses)
    decreases |expired|
  {
    if expired != [] {
      var front, last := expired[..|expired| - 1], expired[|expired| - 1];
      assert expired == front + [last];
      AppendConn(front, last);
      ClosesExactly(place[last.conn := Closed(last.uses)], front, c);
      assert last.conn !in Conns(front);
    }
  }

  lemma CloseNone(place: map<ConnId, Place>)
    ensures CloseAll(place, []) == place
  {
  }

  /** Closing the last of them is the first step. */
  lemma CloseLast(place: map<ConnId, Place>, was: seq<Pooled>, n: nat, k: nat)
    requires n < k <= |was|
    ensures CloseAll(place, was[n..k]) == CloseAll(place[was[k - 1].conn := Closed(was[k - 1].uses)], was[n..k - 1])
  {
    assert was[n..k][..k - 1 - n] == was[n..k - 1];
  }

  class Pool {
    var items: seq<Pooled>
    /** How many connections the factory has made; the next one is named by this number. */
    var made: nat
    ghost var place: map<ConnId, Place>
    ghost var clock: int

    ghost predicate Valid()
      reads this
    {
      Conserved(items, made, place, clock)
    }

    constructor ()
      ensures Valid() && items == [] && made == 0
    {
      items, made, place, clock := [], 0, map[], 0;
    }

    /** takeIdle: pops from the back, closing what has expired, until something is live. */
    method TakeIdle(now: int) returns (item: Option<Pooled>)
      requires Valid() && now >= clock
      modifies this
      ensures Valid() && clock == now && made == old(made)
      ensures var n := LiveLength(old(items), now);
        var closed := CloseAll(old(place), old(items)[n..]);
        if n == 0 then item == None && items == [] && place == closed
        else
          && item == Some(old(items)[n - 1])
          && items == old(items)[..n - 1]
          && place == closed[old(items)[n - 1].conn := CheckedOut(2)]
    {
      hide Conserved, LiveLength, CloseAll;
      ClockKeeps(items, made, place, clock, now);
      clock := now;
      ghost var was, was' := items, place;
      ghost var n := LiveLength(was, now);
      while items != []
        invariant Valid() && clock == now && made == old(made)
        invariant n <= |items| <= |was| && items == was[..|items|]
        invariant CloseAll(was', was[n..]) == CloseAll(place, was[n..|items|])
        decreases |items|
      {
        var last := items[|items| - 1];
        ItemFacts(items, made, place, clock, last);
        PopKeeps(items, made, place, clock, if now < last.expiresAt then CheckedOut(2) else Closed(1));
        ghost var before := |items|;
        items := items[..|items| - 1];
        if now < last.expiresAt {
          assert was[n..before] == [];
          CloseNone(place);
          place := place[last.conn := CheckedOut(last.uses + 1)];
          return Some(last);
        }
        CloseLast(place, was, n, before);
        place := place[last.conn := Closed(last.uses)];
      }
      item := None;
      assert was[n..0] == [];
      CloseNone(place);
    }

    /** The factory: a fresh connection, on its first session. */
    method Dial() returns (conn: ConnId)
      requires Valid()
      modifies this
      ensures Valid() && items == old(items) && clock == old(clock)
      ensures conn == old(made) && made == old(made) + 1
      ensures place == old(place)[conn := CheckedOut(1)]
    {
      DialKeeps(items, made, place, clock);
      conn := made;
      made, place := made + 1, place[conn := CheckedOut(1)];
    }

    /** GetContext: the latest idle connection on its second session, else a fresh one on its first. */
    method Get(now: int, dialOk: bool) returns (conn: Option<ConnId>)
      requires Valid() && now >= clock
      modifies this
      ensures Valid() && clock == now
      ensures var n := LiveLength(old(items), now);
        var closed := CloseAll(old(place), old(items)[n..]);
        && items == (if n > 0 then old(items)[..n - 1] else [])
        && if n > 0 then
             var c := old(items)[n - 1].conn;
             conn == Some(c) && made == old(made) && place == closed[c := CheckedOut(2)]
           else if dialOk then
             conn == Some(old(made)) && made == old(made) + 1 && place == closed[old(made) := CheckedOut(1)]
           else conn == None && made == old(made) && place == closed
    {
      hide Conserved, LiveLength, CloseAll;
      var item := TakeIdle(now);
      if item.Some? {
        return Some(item.value.conn);
      }
      if !dialOk {
        return None;
      }
      var dialed := Dial();
      conn := Some(dialed);
    }

    /** put: closed on its last use or when the pool is full, else idle until it expires. */
    method Put(conn: ConnId, uses: nat, now: int)
      requires Valid() && now >= clock
      requires conn in place && place[conn] == CheckedOut(uses)
      modifies this
      ensures Valid() && clock == now && made == old(made)
      ensures if uses >= MAX_USES || |old(items)| >= MAX_SIZE
        then items == old(items) && place == old(place)[conn := Closed(uses)]
        else items == old(items) + [Pooled(conn, now + MAX_AGE, uses)] && place == old(place)[conn := Idle(uses)]
    {
      hide Conserved;
      ClockKeeps(items, made, place, clock, now);
      clock := now;
      SessionsBound(items, made, place, clock, conn);
      if uses >= MAX_USES || |items| >= MAX_SIZE {
        MoveKeeps(items, made, place, clock, conn, Closed(uses));
        place := place[conn := Closed(uses)];
        return;
      }
      PushKeeps(items, made, place, clock, conn);
      items, place := items + [Pooled(conn, now + MAX_AGE, uses)], place[conn := Idle(uses)];
    }

    /** A checked-out connection closed without going back: an unclean drain, a failed header, an aborted relay. */
    method Discard(conn: ConnId)
      requires Valid() && conn in place && place[conn].CheckedOut?
      modifies this
      ensures Valid() && items == old(items) && made == old(made) && clock == old(clock)
      ensures place == old(place)[conn := Closed(old(place)[conn].sessions)]
    {
      SessionsBound(items, made, place, clock, conn);
      MoveKeeps(items, made, place, clock, conn, Closed(place[conn].sessions));
      place := place[conn := Closed(place[conn].sessions)];
    }
  }

  lemma ClockKeeps(items: seq<Pooled>, made: nat, place: map<ConnId, Place>, clock: int, now: int)
    requires Conserved(items, made, place, clock) && now >= clock
    ensures Conserved(items, made, place, now)
  {
  }

  lemma SessionsBound(items: seq<Pooled>, made: nat, place: map<ConnId, Place>, clock: int, conn: ConnId)
    requires Conserved(items, made, place, clock) && conn in place
    ensures 1 <= place[conn].sessions <= MAX_USES
  {
  }

  lemma ItemFacts(items: seq<Pooled>, made: nat, place: map<ConnId, Place>, clock: int, p: Pooled)
    requires Conserved(items, made, place, clock) && p in items
    ensures p.uses == 1 && p.conn in place && place[p.conn] == Idle(1)
  {
    assert p.conn in Conns(items);
  }
}
