// The limiter in memory: a map of slices over backing arrays. Allow compacts a bucket in
// place, reuses its backing array for the append when there is room, and purges by
// deleting map entries one by one.

module RateLimiter {
  import opened RateWindow

  /** A Go slice: the first `len` cells of a backing array. */
  datatype Slice = Slice(data: array<int>, len: nat)

  /** `kept := stamps[:0]` and the filtering loop over the same cells. */
  method Compact(data: array<int>, len: nat, cutoff: int) returns (kept: nat)
    requires len <= data.Length
    modifies data
    ensures kept <= len && data[..kept] == Fresh(old(data[..len]), cutoff)
  {
    kept := 0;
    for i := 0 to len
      invariant kept <= i
      invariant data[..kept] == Fresh(old(data[..i]), cutoff)
      invariant data[i..] == old(data[i..])
    {
      assert data[i] == data[i..][0] == old(data[i..])[0];
      assert old(data[..i + 1])[..i] == old(data[..i]);
      if data[i] > cutoff {
        data[kept] := data[i];
        kept := kept + 1;
      }
      assert data[i + 1..] == old(data[i + 1..]);
    }
  }

  /** Go's append: in place while the backing array has room, else into a larger copy. */
  method Append(s: Slice, t: int) returns (r: Slice)
    requires s.len <= s.data.Length
    modifies s.data
    ensures r.len == s.len + 1 <= r.data.Length && r.data[..r.len] == old(s.data[..s.len]) + [t]
    ensures r.data == s.data || fresh(r.data)
  {
    var grown := s.data;
    if s.len == s.data.Length {
      grown := new int[2 * s.len + 1];
      for i := 0 to s.len
        modifies grown
        invariant grown[..i] == s.data[..i]
      {
        grown[i] := s.data[i];
      }
    }
    grown[s.len] := t;
    r := Slice(grown, s.len + 1);
  }

  lemma PurgedIs(b: Buckets, rest: Buckets, cutoff: int)
    requires forall k :: k in rest ==> k in b && rest[k] == b[k]
    requires forall k :: k in b ==> (k in rest <==> !Idle(b[k], cutoff))
    ensures rest == Purged(b, cutoff)
  {
  }

  class Limiter {
    const config: Config
    var buckets: map<string, Slice>
    ghost var View: Buckets
    ghost var Repr: set<object>

    /** Slices fit their arrays, no two keys share one, and View is what they hold. */
    ghost predicate Valid()
      reads this, Repr
    {
      && View.Keys == buckets.Keys
      && (forall k :: k in buckets ==> Holds(buckets[k], View[k]))
      && (forall j, k :: j in buckets && k in buckets && j != k ==> buckets[j].data != buckets[k].data)
    }

    ghost predicate Holds(s: Slice, stamps: seq<int>)
      reads this, Repr
    {
      s.data in Repr && s.len <= s.data.Length && s.data[..s.len] == stamps
    }

    constructor (config: Config)
      ensures this.config == config && Valid() && View == map[] && Repr == {}
    {
      this.config := config;
      buckets, View, Repr := map[], map[], {};
    }

    method PurgeIdle(cutoff: int)
      requires Valid()
      modifies this`buckets, this`View
      ensures Valid() && View == Purged(old(View), cutoff)
    {
      ghost var was := View;
      var keys := buckets.Keys;
      while keys != {}
        invariant keys <= View.Keys && Valid()
        invariant forall k :: k in View ==> k in was && View[k] == was[k]
        invariant forall k :: k in was && k !in keys ==> (k in View <==> !Idle(was[k], cutoff))
      {
        var k :| k in keys;
        PurgeOne(k, cutoff);
        keys := keys - {k};
      }
      PurgedIs(was, View, cutoff);
    }

    method PurgeOne(k: string, cutoff: int)
      requires Valid() && k in View
      modifies this`buckets, this`View
      ensures Valid() && View == if Idle(old(View)[k], cutoff) then old(View) - {k} else old(View)
    {
      var s := buckets[k];
      assert Holds(s, View[k]);
      if s.len == 0 || s.data[s.len - 1] <= cutoff {
        buckets, View := buckets - {k}, View - {k};
      }
    }

    method Allow(ip: string, now: int) returns (ok: bool)
      requires Valid()
      modifies this`buckets, this`View, this`Repr, Repr
      ensures Valid() && fresh(Repr - old(Repr))
      ensures ok == Allows(config, old(View), ip, now)
      ensures View == RateWindow.Allow(config, old(View), ip, now)
    {
      var cutoff := now - config.window;
      var full := config.purgeAt.Some? && ip !in buckets && |buckets| >= config.purgeAt.value;
      assert full == Purges(config, View, ip) by { assert |buckets.Keys| == |View.Keys|; }
      if full {
        PurgeIdle(cutoff);
      }
      ok := Record(ip, now, cutoff);
    }

    /** The rest of Allow: compact the bucket in place, then append when there is quota left. */
    method Record(ip: string, now: int, cutoff: int) returns (ok: bool)
      requires Valid()
      modifies this`buckets, this`View, this`Repr, Repr
      ensures Valid() && fresh(Repr - old(Repr))
      ensures var kept := Fresh(Stamps(old(View), ip), cutoff);
        ok == (|kept| < config.limit) && View == old(View)[ip := if ok then kept + [now] else kept]
    {
      var s: Slice;
      if ip in buckets {
        s := buckets[ip];
        assert Holds(s, View[ip]);
      } else {
        var none := new int[0];
        s := Slice(none, 0);
      }
      var kept := Compact(s.data, s.len, cutoff);
      ghost var stamps := s.data[..kept];
      if kept >= config.limit {
        Put(ip, Slice(s.data, kept), stamps);
        return false;
      }
      var longer := Append(Slice(s.data, kept), now);
      Put(ip, longer, stamps + [now]);
      return true;
    }

    /** Stores a slice whose array is the key's own or new. */
    method Put(ip: string, s: Slice, ghost stamps: seq<int>)
      requires View.Keys == buckets.Keys
      requires forall k :: k in buckets && k != ip ==> Holds(buckets[k], View[k]) && buckets[k].data != s.data
      requires forall j, k :: j in buckets && k in buckets && j != k ==> buckets[j].data != buckets[k].data
      requires s.len <= s.data.Length && s.data[..s.len] == stamps
      modifies this`buckets, this`View, this`Repr
      ensures Valid() && View == old(View)[ip := stamps] && Repr == old(Repr) + {s.data}
    {
      buckets, View, Repr := buckets[ip := s], View[ip := stamps], Repr + {s.data};
    }
  }
}
