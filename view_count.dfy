/** The "already viewed" store behind post view counting (ViewCountRedisRepository).

    A view of a post by a user (identified by a string) is recorded with an
    expiry instant `now + expiresAfter`. While that instant has not been
    reached the pair counts as already viewed, so a repeated view does not
    increase the post's view count; afterwards it no longer does. Recording the
    same pair again replaces its expiry. Instants and durations are whole
    seconds.
*/
module ViewCount {

  /** A post and the user who viewed it. */
  datatype ViewKey = ViewKey(postId: nat, userIdentifier: string)

  /** The pair counts as viewed at `now` when it is recorded and `now` is before its expiry instant. */
  function Contains(expiry: map<ViewKey, int>, key: ViewKey, now: int): bool
  {
    key in expiry && now < expiry[key]
  }

  /** Right after recording a view that lasts `expiresAfter` seconds, the pair
      counts as viewed at exactly the instants before `now + expiresAfter`. */
  lemma PutThenContains(expiry: map<ViewKey, int>, key: ViewKey, expiresAfter: nat, now: int, t: int)
    ensures Contains(expiry[key := now + expiresAfter], key, t) <==> t < now + expiresAfter
  {
  }

  /** Recording one pair does not change whether any other pair counts as viewed. */
  lemma PutKeepsOthers(expiry: map<ViewKey, int>, key: ViewKey, other: ViewKey, expiresAfter: nat, now: int, t: int)
    requires other != key
    ensures Contains(expiry[key := now + expiresAfter], other, t) == Contains(expiry, other, t)
  {
  }

  /** Once a pair stops counting as viewed it does not count again later
      (until it is recorded again). */
  lemma ExpiredStaysExpired(expiry: map<ViewKey, int>, key: ViewKey, t1: int, t2: int)
    requires t1 <= t2 && !Contains(expiry, key, t1)
    ensures !Contains(expiry, key, t2)
  {
  }

  /** The scenarios of the source's tests, in seconds: a view recorded for 100
      minutes or for 10 minutes counts at the instant it was recorded; with
      nothing recorded nothing counts; a view recorded for 100 minutes no
      longer counts 60 seconds after it expired. */
  lemma ViewScenarios(now: int)
    ensures Contains(map[ViewKey(10, "User") := now + 6000], ViewKey(10, "User"), now)
    ensures Contains(map[ViewKey(10, "User") := now + 600], ViewKey(10, "User"), now)
    ensures !Contains(map[], ViewKey(10, "User"), now)
    ensures !Contains(map[ViewKey(10, "User") := now + 6000], ViewKey(10, "User"), now + 6000 + 60)
  {
  }

  // ---------------------------------------------------------------------------
  // A history of recorded views
  // ---------------------------------------------------------------------------

  /** One call of `put`. */
  datatype PutCall = PutCall(key: ViewKey, expiresAfter: nat, at: int)

  /** The store after the calls `puts`, in order, starting empty. */
  function Replay(puts: seq<PutCall>): map<ViewKey, int>
  {
    if puts == [] then map[]
    else
      var p := puts[|puts| - 1];
      Replay(puts[..|puts| - 1])[p.key := p.at + p.expiresAfter]
  }

  /** `puts[i]` is the last call for its pair. */
  ghost predicate LastFor(puts: seq<PutCall>, i: nat)
    requires i < |puts|
  {
    forall j :: i < j < |puts| ==> puts[j].key != puts[i].key
  }

  /** A call for another pair does not change which earlier call is the last for a pair. */
  lemma LastForSnoc(puts: seq<PutCall>, i: nat)
    requires i < |puts| - 1 && puts[i].key != puts[|puts| - 1].key
    ensures LastFor(puts, i) <==> LastFor(puts[..|puts| - 1], i)
  {
    var init := puts[..|puts| - 1];
    if LastFor(init, i) {
      forall j | i < j < |puts| ensures puts[j].key != puts[i].key {
        if j < |init| { assert puts[j] == init[j]; }
      }
    }
  }

  /** `puts[i]` is the last call for `key` and makes it last beyond `t`. */
  ghost predicate LatestBeyond(puts: seq<PutCall>, key: ViewKey, t: int, i: nat)
    requires i < |puts|
  {
    puts[i].key == key && LastFor(puts, i) && t < puts[i].at + puts[i].expiresAfter
  }

  ghost predicate DecidedByLatest(puts: seq<PutCall>, key: ViewKey, t: int)
  {
    exists i: nat :: i < |puts| && LatestBeyond(puts, key, t, i)
  }

  /** A call for another pair leaves the pair's entry in the replayed store alone. */
  lemma ReplayOther(puts: seq<PutCall>, key: ViewKey, t: int)
    requires puts != [] && puts[|puts| - 1].key != key
    ensures Contains(Replay(puts), key, t) == Contains(Replay(puts[..|puts| - 1]), key, t)
  {
  }

  /** A call for another pair keeps the decisive earlier call decisive, and adds none. */
  lemma LatestBeyondSnoc(puts: seq<PutCall>, key: ViewKey, t: int, i: nat)
    requires i < |puts| - 1 && puts[|puts| - 1].key != key
    ensures LatestBeyond(puts, key, t, i) <==> LatestBeyond(puts[..|puts| - 1], key, t, i)
  {
    assert puts[..|puts| - 1][i] == puts[i];
    if puts[i].key == key {
      LastForSnoc(puts, i);
    }
  }

  /** The step of `LatestPutDecides` for a last call that names another pair. */
  lemma DecidedOther(puts: seq<PutCall>, key: ViewKey, t: int)
    requires puts != [] && puts[|puts| - 1].key != key
    ensures DecidedByLatest(puts, key, t) <==> DecidedByLatest(puts[..|puts| - 1], key, t)
  {
    var n := |puts| - 1;
    if DecidedByLatest(puts[..n], key, t) {
      var i: nat :| i < n && LatestBeyond(puts[..n], key, t, i);
      LatestBeyondSnoc(puts, key, t, i);
    }
    if DecidedByLatest(puts, key, t) {
      var i: nat :| i < |puts| && LatestBeyond(puts, key, t, i);
      assert i < n;
      LatestBeyondSnoc(puts, key, t, i);
    }
  }

  /** After any history of calls, a pair counts as viewed at `t` exactly when
      its most recent call made it last beyond `t`: earlier calls for the pair
      are overwritten. */
  lemma {:induction false} LatestPutDecides(puts: seq<PutCall>, key: ViewKey, t: int)
    ensures Contains(Replay(puts), key, t) <==> DecidedByLatest(puts, key, t)
  {
    if puts != [] {
      var n := |puts| - 1;
      LatestPutDecides(puts[..n], key, t);
      if puts[n].key == key {
        assert LastFor(puts, n);
        if t < puts[n].at + puts[n].expiresAfter {
          assert LatestBeyond(puts, key, t, n);
        }
        forall i: nat | i < n
          ensures !LatestBeyond(puts, key, t, i)
        {
        }
      } else {
        ReplayOther(puts, key, t);
        DecidedOther(puts, key, t);
      }
    }
  }

  // ---------------------------------------------------------------------------
  // The repository
  // ---------------------------------------------------------------------------

  class ViewCountRepository {
    /** The expiry instant of every recorded pair. */
    var expiry: map<ViewKey, int>
    /** The calls of `Put` so far, in order. */
    ghost var history: seq<PutCall>

    /** The store is the replay of its history. */
    ghost predicate Valid()
      reads this
    {
      expiry == Replay(history)
    }

    constructor()
      ensures Valid() && history == []
    {
      expiry := map[];
      history := [];
    }

    /** Records that `userIdentifier` viewed post `postId` at `now`, for `expiresAfter` seconds. */
    method Put(postId: nat, userIdentifier: string, expiresAfter: nat, now: int)
      requires Valid()
      modifies this
      ensures Valid()
      ensures history == old(history) + [PutCall(ViewKey(postId, userIdentifier), expiresAfter, now)]
      ensures expiry == old(expiry)[ViewKey(postId, userIdentifier) := now + expiresAfter]
    {
      expiry := expiry[ViewKey(postId, userIdentifier) := now + expiresAfter];
      history := history + [PutCall(ViewKey(postId, userIdentifier), expiresAfter, now)];
      assert history[..|history| - 1] == old(history);
    }

    /** Whether `userIdentifier`'s view of post `postId` still counts at `now`;
        with `LatestPutDecides`, that is whether the pair's most recent `Put`
        lasts beyond `now`. */
    method IsAlreadyContains(postId: nat, userIdentifier: string, now: int) returns (r: bool)
      requires Valid()
      ensures r == Contains(expiry, ViewKey(postId, userIdentifier), now)
      ensures r <==> DecidedByLatest(history, ViewKey(postId, userIdentifier), now)
    {
      var key := ViewKey(postId, userIdentifier);
      r := key in expiry && now < expiry[key];
      LatestPutDecides(history, key, now);
    }
  }
}
