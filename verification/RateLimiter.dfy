/** The sliding-window rate limiter. Instants are integers; the clock is a
    parameter of every call. */
module RateLimiter {

  /** The hits after the cutoff, in order. */
  function Fresh(hits: seq<int>, cutoff: int): seq<int> {
    if |hits| == 0 then []
    else
      var rest := Fresh(hits[..|hits| - 1], cutoff);
      if hits[|hits| - 1] > cutoff then rest + [hits[|hits| - 1]] else rest
  }

  predicate Passes(hits: seq<int>, window: int, maxHits: int, now: int) {
    |Fresh(hits, now - window)| < maxHits
  }

  /** The hits of a key after a call. */
  function HitsAfter(hits: seq<int>, window: int, maxHits: int, now: int): seq<int> {
    Fresh(hits, now - window) + (if Passes(hits, window, maxHits, now) then [now] else [])
  }

  function Wait(hits: seq<int>, window: int, maxHits: int, now: int): int {
    var kept := Fresh(hits, now - window);
    if maxHits <= 0 then window
    else if |kept| < maxHits then 0
    else kept[|kept| - maxHits] + window - now
  }

  lemma {:induction false} FreshStep(hits: seq<int>, i: nat, cutoff: int)
    requires i < |hits|
    ensures Fresh(hits[..i + 1], cutoff)
         == Fresh(hits[..i], cutoff) + (if hits[i] > cutoff then [hits[i]] else [])
  {
    assert hits[..i + 1][..i] == hits[..i];
  }

  lemma {:induction false} FreshLength(hits: seq<int>, cutoff: int)
    ensures |Fresh(hits, cutoff)| <= |hits|
  {
    if hits != [] {
      FreshLength(hits[..|hits| - 1], cutoff);
    }
  }

  /** A slice: the first len elements of a buffer it may share. */
  datatype Slice = Slice(buf: array<int>, len: nat)

  /** Keeps the fresh hits of the first n elements at the front of the buffer
      they are read from. */
  method CompactInPlace(buf: array<int>, n: nat, cutoff: int) returns (kept: nat)
    requires n <= buf.Length
    modifies buf
    ensures kept <= n && buf[..kept] == Fresh(old(buf[..n]), cutoff)
  {
    ghost var was := buf[..n];
    kept := 0;
    for i := 0 to n
      invariant kept <= i
      invariant buf[..kept] == Fresh(was[..i], cutoff)
      invariant forall k :: i <= k < n ==> buf[k] == was[k]
    {
      var t := buf[i];
      FreshStep(was, i, cutoff);
      ghost var front := buf[..kept];
      if t > cutoff {
        buf[kept] := t;
        kept := kept + 1;
        assert buf[..kept] == front + [t];
      } else {
        assert front + [] == front;
      }
    }
    assert was[..n] == was;
  }

  /** Go's append: in place while the capacity lasts, into a new buffer after. */
  method Append(s: Slice, x: int) returns (r: Slice)
    requires s.len <= s.buf.Length
    modifies s.buf
    ensures r.len == s.len + 1 && r.len <= r.buf.Length
    ensures r.buf == s.buf || fresh(r.buf)
    ensures r.buf[..r.len] == old(s.buf[..s.len]) + [x]
  {
    if s.len < s.buf.Length {
      s.buf[s.len] := x;
      r := Slice(s.buf, s.len + 1);
    } else {
      var bigger := new int[2 * s.len + 1];
      for i := 0 to s.len
        invariant bigger[..i] == s.buf[..i]
        invariant s.buf[..] == old(s.buf[..])
      {
        bigger[i] := s.buf[i];
      }
      bigger[s.len] := x;
      r := Slice(bigger, s.len + 1);
    }
  }

  /** The body of a call: compact the entries, test the limit, append. */
  method Admit(entries: Slice, window: int, maxHits: int, now: int) returns (kept: Slice, ok: bool)
    requires entries.len <= entries.buf.Length
    modifies entries.buf
    ensures kept.len <= kept.buf.Length && (kept.buf == entries.buf || fresh(kept.buf))
    ensures ok == Passes(old(entries.buf[..entries.len]), window, maxHits, now)
    ensures kept.buf[..kept.len] == HitsAfter(old(entries.buf[..entries.len]), window, maxHits, now)
  {
    hide Fresh;
    var cutoff := now - window;
    var m := CompactInPlace(entries.buf, entries.len, cutoff);
    kept := Slice(entries.buf, m);
    ghost var compacted := kept.buf[..m];
    if m >= maxHits {
      assert compacted + [] == compacted;
      return kept, false;
    }
    kept := Append(kept, now);
    ok := true;
  }

  class Limiter {
    const window: int
    const maxHits: int
    var hits: map<string, Slice>

    /** No two keys share a buffer. */
    ghost predicate Valid()
      reads this
    {
      && (forall k :: k in hits ==> hits[k].len <= hits[k].buf.Length)
      && (forall j, k :: j in hits && k in hits && j != k ==> hits[j].buf != hits[k].buf)
    }

    ghost function Buffers(): set<object>
      reads this
    {
      set k | k in hits :: hits[k].buf
    }

    /** The recorded hits of a key. */
    ghost function Hits(key: string): seq<int>
      reads this, Buffers()
      requires Valid()
    {
      if key in hits then hits[key].buf[..hits[key].len] else []
    }

    constructor (window: int, maxHits: int)
      ensures Valid() && this.window == window && this.maxHits == maxHits && hits == map[]
    {
      this.window, this.maxHits, hits := window, maxHits, map[];
    }

    method Allow(key: string, now: int) returns (ok: bool)
      requires Valid()
      modifies this, Buffers()
      ensures Valid() && fresh(Buffers() - old(Buffers()))
      ensures ok == Passes(old(Hits(key)), window, maxHits, now)
      ensures Hits(key) == HitsAfter(old(Hits(key)), window, maxHits, now)
      ensures forall other :: other != key ==> Hits(other) == old(Hits(other))
    {
      hide Passes;
      hide HitsAfter;
      var entries: Slice;
      if key in hits {
        entries := hits[key];
      } else {
        var none := new int[0];
        entries := Slice(none, 0);
      }
      var kept;
      kept, ok := Admit(entries, window, maxHits, now);
      hits := hits[key := kept];
    }

    method RetryAfter(key: string, now: int) returns (d: int)
      requires Valid()
      ensures d == Wait(Hits(key), window, maxHits, now)
    {
      if maxHits <= 0 {
        return window;
      }
      var cutoff := now - window;
      var kept: seq<int> := [];
      if key in hits {
        var s := hits[key];
        for i := 0 to s.len
          invariant kept == Fresh(Hits(key)[..i], cutoff)
        {
          FreshStep(Hits(key), i, cutoff);
          if s.buf[i] > cutoff {
            kept := kept + [s.buf[i]];
          }
        }
        assert Hits(key)[..s.len] == Hits(key);
      }
      if |kept| < maxHits {
        return 0;
      }
      return kept[|kept| - maxHits] + window - now;
    }
  }
}
