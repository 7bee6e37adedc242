/**
 The in-process limiters: the multi-key exchange limiter of `bitrix/oauth.py`, the
 per-portal refresh limiter of `api/calls.py` and the re-seed gate of `handlers/open.py`.
 Each class carries the full history of its grants as a ghost field, and every answer is
 stated about that history, never about the pruned deques.
 */
module SlidingWindow {
  import opened Wrappers
  import opened Seqs
  import opened Texts

  const WINDOW: real := 600.0

  // ------------------------------------------------------------------ histories

  type History<!K> = map<K, seq<real>>

  function Charges<K>(h: History<K>, key: K): seq<real> {
    if key in h then h[key] else []
  }

  /** Charges of the last 600 s, counted over a full history. */
  function InLast(times: seq<real>, now: real): nat {
    if times == [] then 0 else (if now - times[0] < WINDOW then 1 else 0) + InLast(times[1..], now)
  }

  predicate Sorted(times: seq<real>) {
    forall i, j :: 0 <= i < j < |times| ==> times[i] <= times[j]
  }

  /** Any `limit + 1` consecutive charges span at least a window. */
  ghost predicate Spaced(times: seq<real>, limit: nat) {
    forall i, j :: 0 <= i < |times| && j == i + limit && j < |times| ==> times[j] - times[i] >= WINDOW
  }

  function CountBetween(times: seq<real>, from: real, to: real): nat {
    if times == [] then 0 else (if from <= times[0] < to then 1 else 0) + CountBetween(times[1..], from, to)
  }

  lemma {:induction false} CountNone(times: seq<real>, from: real, to: real)
    requires forall i :: 0 <= i < |times| ==> times[i] >= to
    ensures CountBetween(times, from, to) == 0
  {
    if times != [] {
      CountNone(times[1..], from, to);
    }
  }

  lemma {:induction false} CountAtMostLength(times: seq<real>, from: real, to: real)
    ensures CountBetween(times, from, to) <= |times|
  {
    if times != [] {
      CountAtMostLength(times[1..], from, to);
    }
  }

  lemma {:induction false} CountConcat(a: seq<real>, b: seq<real>, from: real, to: real)
    ensures CountBetween(a + b, from, to) == CountBetween(a, from, to) + CountBetween(b, from, to)
  {
    if a == [] {
      assert a + b == b;
    } else {
      assert (a + b)[1..] == a[1..] + b;
      CountConcat(a[1..], b, from, to);
    }
  }

  /** Spaced charges never put more than `limit` into any interval of one window. */
  lemma {:induction false} SpacedIsBounded(times: seq<real>, limit: nat, from: real)
    requires Sorted(times) && Spaced(times, limit)
    ensures CountBetween(times, from, from + WINDOW) <= limit
  {
    if times != [] {
      var rest := times[1..];
      assert Sorted(rest) && Spaced(rest, limit) by {
        forall i, j | 0 <= i && j == i + limit && j < |rest| ensures rest[j] - rest[i] >= WINDOW {
          assert rest[j] == times[j + 1] && rest[i] == times[i + 1];
        }
      }
      if from <= times[0] < from + WINDOW && |times| > limit {
        var head, tail := times[..limit], times[limit..];
        assert times == head + tail;
        forall i | 0 <= i < |tail| ensures tail[i] >= from + WINDOW {
          assert tail[i] == times[limit + i] && times[limit] - times[0] >= WINDOW;
        }
        CountConcat(head, tail, from, from + WINDOW);
        CountNone(tail, from, from + WINDOW);
        CountAtMostLength(head, from, from + WINDOW);
      } else if from <= times[0] < from + WINDOW {
        CountAtMostLength(times, from, from + WINDOW);
      } else {
        SpacedIsBounded(rest, limit, from);
      }
    }
  }

  /** For a sorted history the count is the length of what pruning the front leaves. */
  lemma {:induction false} InLastIsSuffix(times: seq<real>, cut: nat, now: real)
    requires Sorted(times) && cut <= |times|
    requires forall i :: 0 <= i < cut ==> now - times[i] >= WINDOW
    requires cut < |times| ==> now - times[cut] < WINDOW
    ensures InLast(times, now) == |times| - cut
  {
    if cut > 0 {
      InLastIsSuffix(times[1..], cut - 1, now);
    } else if times != [] {
      InLastIsSuffix(times[1..], 0, now);
    }
  }

  lemma {:induction false} ChargeKeepsSpaced(times: seq<real>, now: real, limit: nat)
    requires limit > 0 && Sorted(times) && Spaced(times, limit)
    requires forall i :: 0 <= i < |times| ==> times[i] <= now
    requires InLast(times, now) < limit
    ensures Sorted(times + [now]) && Spaced(times + [now], limit)
  {
    if |times| >= limit {
      var k := |times| - limit;
      if now - times[k] < WINDOW {
        FreshTail(times, k, now);
      }
      assert now - times[k] >= WINDOW;
    }
  }

  lemma {:induction false} FreshTail(times: seq<real>, k: nat, now: real)
    requires Sorted(times) && k < |times| && now - times[k] < WINDOW
    ensures InLast(times, now) >= |times| - k
  {
    if k > 0 {
      FreshTail(times[1..], k - 1, now);
    } else if |times| > 1 {
      FreshTail(times[1..], 0, now);
    }
  }

  // ------------------------------------------------------------------ a pruned deque against its history

  /** The deque is the history without some charges that had already aged out. */
  ghost predicate Prunes(held: seq<real>, times: seq<real>, clock: real) {
    && |held| <= |times|
    && held == times[|times| - |held|..]
    && (forall i :: 0 <= i < |times| - |held| ==> clock - times[i] >= WINDOW)
  }

  ghost predicate Faithful<K(!new)>(window: History<K>, history: History<K>, clock: real, limit: nat) {
    forall key :: Good(window, history, key, clock, limit)
  }

  ghost predicate Good<K>(window: History<K>, history: History<K>, key: K, clock: real, limit: nat) {
    var times := Charges(history, key);
    && Sorted(times) && Spaced(times, limit)
    && (forall i :: 0 <= i < |times| ==> times[i] <= clock)
    && Prunes(Charges(window, key), times, clock)
  }

  lemma {:induction false} GoodLater<K(!new)>(window: History<K>, history: History<K>, clock: real, now: real,
                                              limit: nat)
    requires Faithful(window, history, clock, limit) && clock <= now
    ensures Faithful(window, history, now, limit)
  {
    forall key ensures Good(window, history, key, now, limit) {
      assert Good(window, history, key, clock, limit);
    }
  }

  /** Popping one aged charge off the front keeps the deque faithful. */
  lemma {:induction false} PopKeepsPrunes(held: seq<real>, times: seq<real>, now: real)
    requires Prunes(held, times, now) && held != [] && now - held[0] >= WINDOW
    ensures Prunes(held[1..], times, now)
  {
    assert held[0] == times[|times| - |held|];
  }

  lemma {:induction false} PrunedLength(held: seq<real>, times: seq<real>, now: real)
    requires Prunes(held, times, now) && Sorted(times) && (held != [] ==> now - held[0] < WINDOW)
    ensures |held| == InLast(times, now)
  {
    InLastIsSuffix(times, |times| - |held|, now);
  }

  lemma {:induction false} AllAged(held: seq<real>, times: seq<real>, now: real)
    requires Prunes(held, times, now) && Sorted(times) && held != [] && now - held[|held| - 1] >= WINDOW
    ensures Prunes([], times, now)
  {
    assert held[|held| - 1] == times[|times| - 1];
    assert times[|times|..] == [];
  }

  ghost predicate SameExcept<K(!new)>(w: History<K>, w': History<K>, key: K) {
    forall k :: k != key ==> Charges(w', k) == Charges(w, k)
  }

  lemma {:induction false} UpdateIsSameExcept<K(!new)>(w: History<K>, key: K, times: seq<real>)
    ensures SameExcept(w, w[key := times], key) && Charges(w[key := times], key) == times
  {
  }

  /** Replacing one bucket keeps the others faithful. */
  lemma {:induction false} ReplaceOne<K(!new)>(w: History<K>, w': History<K>, h: History<K>, h': History<K>,
                                               key: K, now: real, limit: nat)
    requires Faithful(w, h, now, limit) && Good(w', h', key, now, limit)
    requires SameExcept(w, w', key) && SameExcept(h, h', key)
    ensures Faithful(w', h', now, limit)
  {
    forall k ensures Good(w', h', k, now, limit) {
      assert Good(w, h, k, now, limit);
    }
  }

  /** A charge below the limit: the bucket may be pruned first, and gains `now`. */
  lemma {:induction false} AddCharge<K(!new)>(w: History<K>, w': History<K>, h: History<K>, h': History<K>,
                                              key: K, held: seq<real>, now: real, limit: nat)
    requires limit > 0 && Faithful(w, h, now, limit)
    requires Prunes(held, Charges(h, key), now) && InLast(Charges(h, key), now) < limit
    requires w' == w[key := held + [now]] && h' == h[key := Charges(h, key) + [now]]
    ensures Faithful(w', h', now, limit)
  {
    UpdateIsSameExcept(w, key, held + [now]);
    UpdateIsSameExcept(h, key, Charges(h, key) + [now]);
    assert Good(w', h', key, now, limit) by {
      assert Good(w, h, key, now, limit);
      GoodCharged(w', h', key, Charges(h, key), held, now, limit);
    }
    ReplaceOne(w, w', h, h', key, now, limit);
  }

  lemma {:induction false} GoodCharged<K>(w': History<K>, h': History<K>, key: K, times: seq<real>, held: seq<real>,
                                          now: real, limit: nat)
    requires limit > 0 && Sorted(times) && Spaced(times, limit) && Prunes(held, times, now)
    requires (forall i :: 0 <= i < |times| ==> times[i] <= now) && InLast(times, now) < limit
    requires Charges(w', key) == held + [now] && Charges(h', key) == times + [now]
    ensures Good(w', h', key, now, limit)
  {
    ChargeKeepsSpaced(times, now, limit);
    AppendKeepsPrunes(held, times, now);
  }

  /** Pruning a bucket leaves the limiter faithful. */
  lemma {:induction false} Repruned<K(!new)>(w: History<K>, w': History<K>, h: History<K>, key: K, held: seq<real>,
                                             now: real, limit: nat)
    requires Faithful(w, h, now, limit) && Prunes(held, Charges(h, key), now)
    requires Charges(w', key) == held && SameExcept(w, w', key)
    ensures Faithful(w', h, now, limit)
  {
    assert Good(w, h, key, now, limit);
    assert Good(w', h, key, now, limit);
    ReplaceOne(w, w', h, h, key, now, limit);
  }

  /** A bucket may be dropped once its last charge has aged out. */
  ghost predicate Droppable(held: seq<real>, now: real) {
    held == [] || now - held[|held| - 1] >= WINDOW
  }

  lemma {:induction false} DropAged<K(!new)>(w: History<K>, w': History<K>, h: History<K>, now: real, limit: nat)
    requires Faithful(w, h, now, limit)
    requires forall k :: Charges(w', k) == Charges(w, k) || (Charges(w', k) == [] && Droppable(Charges(w, k), now))
    ensures Faithful(w', h, now, limit)
  {
    forall k ensures Good(w', h, k, now, limit) {
      assert Good(w, h, k, now, limit);
      if Charges(w', k) != Charges(w, k) {
        AllAged(Charges(w, k), Charges(h, k), now);
      }
    }
  }

  /** The `popleft` loop: afterwards the deque is exactly the charges still inside the window. */
  method Prune(deque: seq<real>, ghost times: seq<real>, now: real) returns (held: seq<real>)
    requires Prunes(deque, times, now) && Sorted(times)
    ensures Prunes(held, times, now) && |held| == InLast(times, now)
  {
    held := deque;
    while held != [] && now - held[0] >= WINDOW
      invariant Prunes(held, times, now)
      decreases |held|
    {
      PopKeepsPrunes(held, times, now);
      held := held[1..];
    }
    PrunedLength(held, times, now);
  }

  lemma {:induction false} AppendKeepsPrunes(held: seq<real>, times: seq<real>, now: real)
    requires Prunes(held, times, now)
    ensures Prunes(held + [now], times + [now], now)
  {
    assert held + [now] == (times + [now])[|times + [now]| - |held + [now]|..];
  }

  // ------------------------------------------------------------------ the exchange limiter

  /** The first bucket that is full, by the full history. */
  function FirstFull(history: History<string>, keys: seq<string>, now: real, limit: nat): Option<string> {
    if keys == [] then None
    else if InLast(Charges(history, keys[0]), now) >= limit then Some(keys[0])
    else FirstFull(history, keys[1..], now, limit)
  }

  function ChargeAll(history: History<string>, keys: seq<string>, now: real): History<string>
    decreases |keys|
  {
    if keys == [] then history
    else ChargeAll(history[keys[0] := Charges(history, keys[0]) + [now]], keys[1..], now)
  }

  /** A charge adds `now` to exactly the named keys, once each. */
  lemma {:induction false} ChargeAllAt(history: History<string>, keys: seq<string>, now: real, key: string)
    requires Distinct(keys)
    ensures Charges(ChargeAll(history, keys, now), key) == Charges(history, key) + (if key in keys then [now] else [])
    decreases |keys|
  {
    if keys != [] {
      var next := history[keys[0] := Charges(history, keys[0]) + [now]];
      assert Distinct(keys[1..]);
      ChargeAllAt(next, keys[1..], now, key);
      assert key in keys <==> key == keys[0] || key in keys[1..];
      if key == keys[0] {
        assert key !in keys[1..];
      }
    } else {
      assert Charges(history, key) + [] == Charges(history, key);
    }
  }

  lemma {:induction false} FirstFullFinds(history: History<string>, keys: seq<string>, now: real, limit: nat)
    ensures match FirstFull(history, keys, now, limit)
            case None => forall key :: key in keys ==> InLast(Charges(history, key), now) < limit
            case Some(key) => key in keys && InLast(Charges(history, key), now) >= limit
  {
    if keys != [] && InLast(Charges(history, keys[0]), now) < limit {
      FirstFullFinds(history, keys[1..], now, limit);
    }
  }

  /** The member's key first, if a member is given, and the address's, if one is. */
  function ScopeKeys(member: string, sourceIp: string): (keys: seq<string>)
    ensures Distinct(keys)
    ensures |keys| == (if member != "" then 1 else 0) + (if sourceIp != "" then 1 else 0)
    ensures member != "" ==> "member:" <= keys[0] && SameButSpaceAndCase(member, keys[0][7..])
    ensures sourceIp != "" ==> "ip:" <= keys[|keys| - 1] && keys[|keys| - 1][3..] == Strip(sourceIp)
  {
    assert ("member:" + Lower(Strip(member)))[7..] == Lower(Strip(member));
    assert ("ip:" + Strip(sourceIp))[3..] == Strip(sourceIp);
    var a := if member != "" then ["member:" + Lower(Strip(member))] else [];
    var b := if sourceIp != "" then ["ip:" + Strip(sourceIp)] else [];
    assert a != [] && b != [] ==> a[0][0] != b[0][0];
    a + b
  }

  predicate SameButSpaceAndCase(text: string, key: string) {
    |key| == |Strip(text)| && forall i :: 0 <= i < |key| ==> key[i] == LowerChar(Strip(text)[i])
  }

  /**
   Two calls share a bucket exactly when their trimmed members agree but for case, or their
   trimmed addresses agree.
   */
  lemma {:induction false} SharedBuckets(m1: string, a1: string, m2: string, a2: string)
    ensures (exists key :: key in ScopeKeys(m1, a1) && key in ScopeKeys(m2, a2)) <==>
              || (m1 != "" && m2 != "" && Lower(Strip(m1)) == Lower(Strip(m2)))
              || (a1 != "" && a2 != "" && Strip(a1) == Strip(a2))
  {
    var k1, k2 := ScopeKeys(m1, a1), ScopeKeys(m2, a2);
    assert forall m, a, key :: key in ScopeKeys(m, a) <==>
             (m != "" && key == "member:" + Lower(Strip(m))) || (a != "" && key == "ip:" + Strip(a));
    if m1 != "" && m2 != "" && Lower(Strip(m1)) == Lower(Strip(m2)) {
      assert "member:" + Lower(Strip(m1)) in k1 && "member:" + Lower(Strip(m1)) in k2;
    }
    if a1 != "" && a2 != "" && Strip(a1) == Strip(a2) {
      assert "ip:" + Strip(a1) in k1 && "ip:" + Strip(a1) in k2;
    }
    if key :| key in k1 && key in k2 {
      PrefixedDiffer(Lower(Strip(m1)), Lower(Strip(m2)), Strip(a1), Strip(a2));
    }
  }

  lemma {:induction false} PrefixedDiffer(m1: string, m2: string, a1: string, a2: string)
    ensures "member:" + m1 == "member:" + m2 ==> m1 == m2
    ensures "ip:" + a1 == "ip:" + a2 ==> a1 == a2
    ensures "member:" + m1 != "ip:" + a2 && "member:" + m2 != "ip:" + a1
  {
    assert ("member:" + m1)[7..] == m1 && ("member:" + m2)[7..] == m2;
    assert ("ip:" + a1)[3..] == a1 && ("ip:" + a2)[3..] == a2;
    assert ("member:" + m1)[0] == 'm' && ("member:" + m2)[0] == 'm';
    assert ("ip:" + a1)[0] == 'i' && ("ip:" + a2)[0] == 'i';
  }

  class ExchangeLimiter {
    const limit: nat
    var window: History<string>
    ghost var history: History<string>
    ghost var clock: real

    ghost predicate Valid()
      reads this
    {
      limit > 0 && Faithful(window, history, clock, limit)
    }

    constructor (limit: nat)
      requires limit > 0
      ensures Valid() && history == map[] && this.limit == limit
    {
      this.limit := limit;
      window, history, clock := map[], map[], 0.0;
    }

    /** `_sweep`: forgetting aged windows changes no answer, since no answer depends on them. */
    method Sweep(now: real)
      requires Valid() && clock <= now
      modifies this
      ensures Valid() && clock == now && history == old(history)
      ensures window.Keys <= old(window.Keys)
    {
      GoodLater(window, history, clock, now, limit);
      ghost var before := window;
      window := map key | key in window && window[key] != [] && now - window[key][|window[key]| - 1] < WINDOW
          :: window[key];
      clock := now;
      DropAged(before, window, history, now, limit);
    }

    /** Prune one bucket and say whether it is full. */
    method Full(key: string, now: real) returns (full: bool)
      requires Valid() && clock == now
      modifies this
      ensures Valid() && clock == now && history == old(history)
      ensures full <==> InLast(Charges(history, key), now) >= limit
      ensures window.Keys <= old(window.Keys)
    {
      assert Good(window, history, key, now, limit);
      ghost var before := window;
      if key !in window {
        PrunedLength([], Charges(history, key), now);
        return false;
      }
      var held := Prune(window[key], Charges(history, key), now);
      window := if held == [] then window - {key} else window[key := held];
      Repruned(before, window, history, key, held, now, limit);
      full := |held| >= limit;
    }

    /**
     `_check_rate_limit`. It refuses exactly when some key has `limit` charges in the last
     600 s of the full history; a refusal charges nothing and adds no bucket, and otherwise
     every key is charged once.
     */
    method Check(keys: seq<string>, now: real) returns (refused: Option<string>)
      requires Valid() && clock <= now && Distinct(keys)
      modifies this
      ensures Valid() && clock == now
      ensures refused == FirstFull(old(history), keys, now, limit)
      ensures refused.Some? <==> exists key :: key in keys && InLast(Charges(old(history), key), now) >= limit
      ensures refused.Some? ==> history == old(history) && window.Keys <= old(window.Keys)
      ensures refused.None? ==> history == ChargeAll(old(history), keys, now)
    {
      FirstFullFinds(history, keys, now, limit);
      if |window| > 4096 {
        Sweep(now);
      } else {
        GoodLater(window, history, clock, now, limit);
        clock := now;
      }
      assert keys[0..] == keys;
      for i := 0 to |keys|
        invariant Valid() && clock == now && history == old(history) && window.Keys <= old(window.Keys)
        invariant FirstFull(history, keys, now, limit) == FirstFull(history, keys[i..], now, limit)
      {
        assert keys[i..][1..] == keys[i + 1..];
        var full := Full(keys[i], now);
        if full {
          return Some(keys[i]);
        }
      }
      for i := 0 to |keys|
        invariant Valid() && clock == now
        invariant ChargeAll(old(history), keys, now) == ChargeAll(history, keys[i..], now)
        invariant forall j :: i <= j < |keys| ==> Charges(history, keys[j]) == Charges(old(history), keys[j])
        invariant forall j :: 0 <= j < |keys| ==> InLast(Charges(old(history), keys[j]), now) < limit
      {
        assert keys[i..][1..] == keys[i + 1..];
        Charge(keys[i], now);
      }
      return None;
    }

    method Charge(key: string, now: real)
      requires Valid() && clock == now && InLast(Charges(history, key), now) < limit
      modifies this
      ensures Valid() && clock == now
      ensures history == old(history)[key := Charges(old(history), key) + [now]]
    {
      assert Good(window, history, key, now, limit);
      ghost var w, h := window, history;
      window := window[key := Charges(window, key) + [now]];
      history := history[key := Charges(history, key) + [now]];
      AddCharge(w, window, h, history, key, Charges(w, key), now, limit);
    }

    /** In every state the limiter can reach, no 600 s interval holds more than `limit` charges of a key. */
    lemma {:induction false} NeverOverLimit(key: string, from: real)
      requires Valid()
      ensures CountBetween(Charges(history, key), from, from + 600.0) <= limit
    {
      assert Good(window, history, key, clock, limit);
      SpacedIsBounded(Charges(history, key), limit, from);
    }
  }

  // ------------------------------------------------------------------ the refresh limiter

  class RefreshLimiter {
    const limit: nat := 30
    var window: History<int>
    ghost var history: History<int>
    ghost var clock: real

    ghost predicate Valid()
      reads this
    {
      Faithful(window, history, clock, limit)
    }

    constructor ()
      ensures Valid() && history == map[]
    {
      window, history, clock := map[], map[], 0.0;
    }

    /** `_charge_refresh`: granted exactly below 30 charges in the last 600 s of full history. */
    method Charge(portal: int, now: real) returns (ok: bool)
      requires Valid() && clock <= now
      modifies this
      ensures Valid() && clock == now
      ensures ok <==> InLast(Charges(old(history), portal), now) < limit
      ensures history == if ok then old(history)[portal := Charges(old(history), portal) + [now]] else old(history)
    {
      GoodLater(window, history, clock, now, limit);
      ghost var w, h := window, history;
      assert Good(w, h, portal, now, limit);
      clock := now;
      var held := Prune(Charges(window, portal), Charges(h, portal), now);
      if |held| >= limit {
        window := window[portal := held];
        Repruned(w, window, h, portal, held, now, limit);
        return false;
      }
      var kept := window[portal := held + [now]];
      history := history[portal := Charges(history, portal) + [now]];
      AddCharge(w, kept, h, history, portal, held, now, limit);
      window := map k | k in kept && kept[k] != [] :: kept[k];
      DropAged(kept, window, history, now, limit);
      return true;
    }

    lemma {:induction false} NeverOverLimit(portal: int, from: real)
      requires Valid()
      ensures CountBetween(Charges(history, portal), from, from + 600.0) <= 30
    {
      assert Good(window, history, portal, clock, limit);
      SpacedIsBounded(Charges(history, portal), limit, from);
    }
  }

  // ------------------------------------------------------------------ the re-seed gate

  ghost function Singletons(attempts: map<int, real>): History<int> {
    map portal | portal in attempts :: [attempts[portal]]
  }

  /** What one entry of the gate says about the history. */
  lemma {:induction false} GateReads(attempts: map<int, real>, history: History<int>, portal: int, now: real)
    requires Faithful(Singletons(attempts), history, now, 1)
    ensures InLast(Charges(history, portal), now)
            == if portal in attempts && now - attempts[portal] < WINDOW then 1 else 0
  {
    GateHolds(attempts, history, portal, now);
  }

  lemma {:induction false} GateHolds(attempts: map<int, real>, history: History<int>, portal: int, now: real)
    requires Faithful(Singletons(attempts), history, now, 1)
    ensures InLast(Charges(history, portal), now)
            == if portal in attempts && now - attempts[portal] < WINDOW then 1 else 0
    ensures InLast(Charges(history, portal), now) == 0 ==> Prunes([], Charges(history, portal), now)
  {
    var held := Charges(Singletons(attempts), portal);
    assert Good(Singletons(attempts), history, portal, now, 1);
    if held != [] && now - attempts[portal] >= WINDOW {
      AllAged(held, Charges(history, portal), now);
      PrunedLength([], Charges(history, portal), now);
    } else {
      PrunedLength(held, Charges(history, portal), now);
    }
  }

  lemma {:induction false} GateForgets(before: map<int, real>, attempts: map<int, real>, history: History<int>,
                                       now: real)
    requires Faithful(Singletons(before), history, now, 1)
    requires attempts == map k | k in before && now - before[k] < WINDOW :: before[k]
    ensures Faithful(Singletons(attempts), history, now, 1)
  {
    DropAged(Singletons(before), Singletons(attempts), history, now, 1);
  }

  lemma {:induction false} GateGrants(attempts: map<int, real>, history: History<int>, portal: int, now: real)
    requires Faithful(Singletons(attempts), history, now, 1) && InLast(Charges(history, portal), now) == 0
    ensures Faithful(Singletons(attempts[portal := now]), history[portal := Charges(history, portal) + [now]], now, 1)
  {
    GateHolds(attempts, history, portal, now);
    var w, w' := Singletons(attempts), Singletons(attempts[portal := now]);
    assert [] + [now] == [now] && w' == w[portal := [now]];
    AddCharge(w, w', history, history[portal := Charges(history, portal) + [now]], portal, [], now, 1);
  }

  class ReseedGate {
    var attempts: map<int, real>
    ghost var history: History<int>
    ghost var clock: real

    ghost predicate Valid()
      reads this
    {
      Faithful(Singletons(attempts), history, clock, 1)
    }

    constructor ()
      ensures Valid() && history == map[]
    {
      attempts, history, clock := map[], map[], 0.0;
    }

    method Forget(now: real)
      requires Valid() && clock == now
      modifies this`attempts
      ensures Valid()
    {
      ghost var before := attempts;
      attempts := map k | k in attempts && now - attempts[k] < WINDOW :: attempts[k];
      GateForgets(before, attempts, history, now);
    }

    method Mark(portal: int, now: real)
      requires Valid() && clock == now && InLast(Charges(history, portal), now) == 0
      modifies this
      ensures Valid() && clock == now
      ensures history == old(history)[portal := Charges(old(history), portal) + [now]]
      ensures attempts == old(attempts)[portal := now]
    {
      GateGrants(attempts, history, portal, now);
      attempts := attempts[portal := now];
      history := history[portal := Charges(history, portal) + [now]];
    }

    /** `_reseed_gate`: granted exactly when the portal was granted nothing in the last 600 s. */
    method Enter(portal: int, now: real) returns (ok: bool)
      requires Valid() && clock <= now
      modifies this
      ensures Valid() && clock == now
      ensures ok <==> InLast(Charges(old(history), portal), now) == 0
      ensures history == if ok then old(history)[portal := Charges(old(history), portal) + [now]] else old(history)
    {
      GoodLater(Singletons(attempts), history, clock, now, 1);
      GateReads(attempts, history, portal, now);
      clock := now;
      if portal in attempts && now - attempts[portal] < WINDOW {
        return false;
      }
      if |attempts| >= 4096 {
        Forget(now);
      }
      Mark(portal, now);
      return true;
    }

    /** Two grants to one portal are at least 600 s apart, in any reachable state. */
    lemma {:induction false} GrantsAreApart(portal: int, i: nat, j: nat)
      requires Valid() && i < j < |Charges(history, portal)|
      ensures Charges(history, portal)[j] - Charges(history, portal)[i] >= 600.0
    {
      assert Good(Singletons(attempts), history, portal, clock, 1);
      var times := Charges(history, portal);
      assert times[i + 1] - times[i] >= WINDOW;
      assert times[i + 1] <= times[j];
    }
  }
}
