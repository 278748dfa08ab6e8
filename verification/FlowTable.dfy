/** The QUIC proxy's flow table: a flow is open exactly as long as the table maps its client to it. */
module FlowTable {
  import opened Bytes

  /** A client address as its string. */
  type Key = seq<byte>

  class QuicFlow {
    var lastActivity: int
    var stopped: bool
    ghost var closes: nat

    constructor (now: int)
      ensures !stopped && closes == 0 && lastActivity == now
    {
      lastActivity, stopped, closes := now, false, 0;
    }

    /** close, guarded by closeOnce. */
    method Close()
      modifies this`stopped, this`closes
      ensures stopped && closes == old(closes) + (if old(stopped) then 0 else 1)
    {
      if !stopped {
        stopped, closes := true, closes + 1;
      }
    }
  }

  class Table {
    var m: map<Key, QuicFlow>
    /** Every flow that was ever put. */
    ghost var inserted: set<QuicFlow>

    /** An inserted flow is open if and only if it is a current value of the map, and has been closed at most once. */
    ghost predicate Valid()
      reads this, inserted
    {
      && m.Values <= inserted
      && (forall f <- inserted :: f.stopped <==> f !in m.Values)
      && (forall f <- inserted :: f.closes == if f.stopped then 1 else 0)
      && (forall j, k :: j in m && k in m && m[j] == m[k] ==> j == k)
    }

    constructor ()
      ensures Valid() && m == map[] && inserted == {}
    {
      m, inserted := map[], {};
    }

    method Get(key: Key) returns (f: QuicFlow?)
      requires Valid()
      ensures f == if key in m then m[key] else null
      ensures f != null ==> !f.stopped
    {
      if key in m {
        assert m[key] in m.Values;
        return m[key];
      }
      f := null;
    }

    /** put of a flow the table has not seen: it replaces, and closes, what its client had. */
    method Put(key: Key, f: QuicFlow)
      requires Valid() && f !in inserted && !f.stopped && f.closes == 0
      modifies this, inserted
      ensures Valid() && inserted == old(inserted) + {f}
      ensures m == old(m)[key := f]
      ensures forall g <- old(inserted) :: g.stopped == (old(g.stopped) || (key in old(m) && g == old(m)[key]))
    {
      if key in m {
        assert m[key] in m.Values;
        m[key].Close();
      }
      RebindValues(m, key, f);
      m := m[key := f];
      inserted := inserted + {f};
    }

    method Remove(key: Key)
      requires Valid()
      modifies this`m, inserted
      ensures Valid()
      ensures m == old(m) - {key}
      ensures forall g <- inserted :: g.stopped == (old(g.stopped) || (key in old(m) && g == old(m)[key]))
    {
      if key in m {
        var f := m[key];
        assert f in m.Values;
        UnbindValues(m, key);
        m := m - {key};
        f.Close();
      } else {
        assert m - {key} == m;
      }
    }

    /** The reaper's first phase, under the read lock: keys of flows idle since before the cutoff. */
    method FindDead(cutoff: int) returns (dead: seq<Key>)
      requires Valid()
      ensures forall k :: k in dead <==> k in m && m[k].lastActivity < cutoff
    {
      dead := [];
      var keys := m.Keys;
      while keys != {}
        invariant keys <= m.Keys
        invariant forall k :: k in dead <==> k in m && k !in keys && m[k].lastActivity < cutoff
        decreases keys
      {
        var k :| k in keys;
        if m[k].lastActivity < cutoff {
          dead := dead + [k];
        }
        keys := keys - {k};
      }
    }

    /** Its second phase, under the write lock: whatever those keys map to by now goes. */
    method Reap(dead: seq<Key>)
      requires Valid()
      modifies this`m, inserted
      ensures Valid()
      ensures m == old(m) - set k | k in dead
    {
      ghost var gone: set<Key> := {};
      assert m - gone == m;
      for i := 0 to |dead|
        invariant Valid()
        invariant gone == set k | k in dead[..i]
        invariant m == old(m) - gone
      {
        Remove(dead[i]);
        assert dead[..i + 1] == dead[..i] + [dead[i]];
        gone := gone + {dead[i]};
      }
      assert dead[..|dead|] == dead;
    }
  }

  lemma RebindValues(m: map<Key, QuicFlow>, key: Key, f: QuicFlow)
    requires forall j, k :: j in m && k in m && m[j] == m[k] ==> j == k
    requires f !in m.Values
    ensures m[key := f].Values == m.Values - (if key in m then {m[key]} else {}) + {f}
  {
    var m' := m[key := f];
    forall g | g in m.Values && (key in m ==> g != m[key]) ensures g in m'.Values {
      var k :| k in m && m[k] == g;
      assert m'[k] == g;
    }
    assert m'[key] == f;
  }

  lemma UnbindValues(m: map<Key, QuicFlow>, key: Key)
    requires forall j, k :: j in m && k in m && m[j] == m[k] ==> j == k
    requires key in m
    ensures (m - {key}).Values == m.Values - {m[key]}
  {
    var m' := m - {key};
    forall g | g in m.Values && g != m[key] ensures g in m'.Values {
      var k :| k in m && m[k] == g;
      assert m'[k] == g;
    }
  }
}
