/**
 The viewer tokens held by `api/record.py`: a bounded map with expiry. The class carries
 the unbounded map it stands for as a ghost field; every answer is stated about that map.
 */
module ViewerTokens {
  import opened Wrappers

  /** `_MAX_VIEWER_TOKENS`. */
  const MAX: nat := 2048

  /** Portal, viewer and call. */
  datatype Key = Key(pid: int, sub: int, cid: int)

  datatype Held = Held(token: string, expires: real)

  type Tokens = map<Key, Held>

  function Live(tokens: Tokens, now: real): (live: Tokens)
    ensures live.Keys <= tokens.Keys
  {
    map key | key in tokens && tokens[key].expires > now :: tokens[key]
  }

  ghost predicate Within(part: Tokens, whole: Tokens) {
    forall key :: key in part ==> key in whole && whole[key] == part[key]
  }

  /** No entry of the map expires before this one. */
  ghost predicate Earliest(tokens: Tokens, key: Key) {
    key in tokens && forall other :: other in tokens ==> tokens[key].expires <= tokens[other].expires
  }

  lemma {:induction false} WithinSize(part: Tokens, whole: Tokens)
    requires Within(part, whole)
    ensures |part| <= |whole|
  {
    SubsetSize(part.Keys, whole.Keys);
    assert |part| == |part.Keys| && |whole| == |whole.Keys|;
  }

  lemma {:induction false} SubsetSize(a: set<Key>, b: set<Key>)
    requires a <= b
    ensures |a| <= |b|
    decreases |a|
  {
    if a != {} {
      var x :| x in a;
      SubsetSize(a - {x}, b - {x});
    }
  }

  lemma {:induction false} RemoveOne(tokens: Tokens, key: Key)
    requires key in tokens
    ensures |tokens - {key}| == |tokens| - 1
  {
    assert (tokens - {key}).Keys == tokens.Keys - {key};
    assert |tokens| == |tokens.Keys| && |tokens - {key}| == |(tokens - {key}).Keys|;
  }

  lemma {:induction false} AddOne(tokens: Tokens, key: Key, held: Held)
    ensures |tokens[key := held]| <= |tokens| + 1
  {
    assert tokens[key := held].Keys == tokens.Keys + {key};
    assert |tokens| == |tokens.Keys| && |tokens[key := held]| == |tokens[key := held].Keys|;
  }

  class Store {
    var tokens: Tokens
    /** Every token remembered, the last one for each key, kept for ever. */
    ghost var ideal: Tokens
    ghost var clock: real
    /** Whether some insert ever found 2048 live tokens. */
    ghost var crowded: bool

    ghost predicate Valid()
      reads this
    {
      && |tokens| <= 2048
      && Within(Live(tokens, clock), Live(ideal, clock))
      && (!crowded ==> Live(tokens, clock) == Live(ideal, clock))
    }

    constructor ()
      ensures Valid() && ideal == map[] && !crowded
    {
      tokens, ideal, clock, crowded := map[], map[], 0.0, false;
    }

    /** Time passing keeps the store right, without touching it. */
    lemma {:induction false} Later(now: real)
      requires Valid() && clock <= now
      ensures Within(Live(tokens, now), Live(ideal, now))
      ensures !crowded ==> Live(tokens, now) == Live(ideal, now)
    {
      forall key | key in Live(tokens, now) ensures key in Live(ideal, now) && Live(ideal, now)[key] == tokens[key] {
        assert key in Live(tokens, clock);
      }
      if !crowded {
        forall key | key in Live(ideal, now) ensures key in Live(tokens, now) && tokens[key] == ideal[key] {
          assert key in Live(ideal, clock);
          assert key in Live(tokens, clock) && Live(tokens, clock)[key] == Live(ideal, clock)[key];
        }
        assert Live(tokens, now) == Live(ideal, now);
      }
    }

    /** `_sweep_viewer_tokens`: collect the expired keys, then delete them one by one. */
    method Sweep(now: real)
      modifies this`tokens
      ensures tokens == Live(old(tokens), now)
      ensures |tokens| <= |old(tokens)|
    {
      var stale := set key | key in tokens && tokens[key].expires <= now;
      while stale != {}
        invariant Within(tokens, old(tokens))
        invariant forall key :: key in old(tokens) ==>
                    (key in tokens <==> old(tokens)[key].expires > now || key in stale)
        invariant forall key :: key in stale ==> key in tokens && tokens[key].expires <= now
        decreases |stale|
      {
        var key :| key in stale;
        tokens := tokens - {key};
        stale := stale - {key};
      }
      WithinSize(tokens, old(tokens));
    }

    /** `min(..., key=expiry)`. */
    method Oldest() returns (victim: Key)
      requires tokens != map[]
      ensures Earliest(tokens, victim)
    {
      victim :| victim in tokens;
      var rest := tokens.Keys - {victim};
      while rest != {}
        invariant victim in tokens && rest <= tokens.Keys
        invariant forall other :: other in tokens && other !in rest ==> tokens[victim].expires <= tokens[other].expires
        decreases |rest|
      {
        var key :| key in rest;
        if tokens[key].expires < tokens[victim].expires {
          victim := key;
        }
        rest := rest - {key};
      }
    }

    /**
     `remember_viewer_token`. The expired tokens go; when 2048 live ones remain, one of
     earliest expiry goes as well, and nothing else is lost.
     */
    method Remember(key: Key, token: string, ttl: int, now: real) returns (victim: Option<Key>)
      requires Valid() && clock <= now
      modifies this
      ensures Valid() && clock == now
      ensures var live, held := Live(old(tokens), now), Held(token, now + ttl as real);
              && ideal == old(ideal)[key := held]
              && (victim.None? <==> |live| < 2048)
              && match victim
                 case None => tokens == live[key := held]
                 case Some(k) => Earliest(live, k) && tokens == (live - {k})[key := held]
      ensures crowded == (old(crowded) || |Live(old(ideal), now)| >= 2048)
      ensures |Live(old(ideal), now)| < 2048 ==> victim.None?
    {
      Later(now);
      ghost var before := tokens;
      Sweep(now);
      WithinSize(tokens, Live(ideal, now));
      victim := None;
      crowded := crowded || |Live(ideal, now)| >= MAX;
      if |tokens| >= MAX {
        var oldest := Oldest();
        RemoveOne(tokens, oldest);
        tokens := tokens - {oldest};
        victim := Some(oldest);
      }
      Inserted(tokens, ideal, key, Held(token, now + ttl as real), now);
      AddOne(tokens, key, Held(token, now + ttl as real));
      tokens := tokens[key := Held(token, now + ttl as real)];
      ideal := ideal[key := Held(token, now + ttl as real)];
      clock := now;
    }

    /** `viewer_token`: an expired entry is deleted on sight; a live one stays where it is. */
    method Lookup(key: Key, now: real) returns (token: Option<string>)
      requires Valid() && clock <= now
      modifies this
      ensures Valid() && clock == now && ideal == old(ideal) && crowded == old(crowded)
      ensures Live(tokens, now) == Live(old(tokens), now)
      ensures token.Some? ==> key in ideal && ideal[key].expires > now && ideal[key].token == token.value
      ensures !crowded ==> (token.Some? <==> key in ideal && ideal[key].expires > now)
    {
      Later(now);
      clock := now;
      token := None;
      if key in tokens {
        var held := tokens[key];
        if held.expires <= now {
          RemoveOne(tokens, key);
          DropExpired(tokens, key, now);
          tokens := tokens - {key};
        } else {
          token := Some(held.token);
          assert key in Live(tokens, now);
        }
      }
      if token.None? {
        assert key !in Live(tokens, now);
      }
    }
  }

  lemma {:induction false} DropExpired(tokens: Tokens, key: Key, now: real)
    requires key in tokens && tokens[key].expires <= now
    ensures Live(tokens - {key}, now) == Live(tokens, now)
  {
  }

  /** An insert into both maps keeps what the store promises. */
  lemma {:induction false} Inserted(tokens: Tokens, ideal: Tokens, key: Key, held: Held, now: real)
    requires Within(tokens, Live(ideal, now))
    ensures Within(Live(tokens[key := held], now), Live(ideal[key := held], now))
    ensures tokens == Live(ideal, now) ==> Live(tokens[key := held], now) == Live(ideal[key := held], now)
  {
  }
}
