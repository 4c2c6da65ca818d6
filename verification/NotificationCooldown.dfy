/**
 The five-minute cooldown of send_all_notifications (alerts/tasks.py): a cache entry per rule,
 facility and severity that expires 300 seconds after the dispatch that set it.
 */
module NotificationCooldown {
  import opened Wrappers
  import AlarmEvents

  datatype Key = Key(rule: nat, facility: nat, severity: AlarmEvents.Severity)

  datatype Attempt = Attempt(key: Key, at: int, sent: bool)

  const COOLDOWN_SECONDS := 300

  /** One of the first j attempts dispatched this key less than the cooldown before `at`. */
  predicate Recent(log: seq<Attempt>, j: nat, key: Key, at: int)
    requires j <= |log|
  {
    exists k :: 0 <= k < j && log[k].key == key && log[k].sent && at - log[k].at < COOLDOWN_SECONDS
  }

  predicate Paced(log: seq<Attempt>) {
    forall j :: 0 <= j < |log| ==> (log[j].sent <==> !Recent(log, j, log[j].key, log[j].at))
  }

  predicate InTimeOrder(log: seq<Attempt>) {
    forall i, j :: 0 <= i < j < |log| ==> log[i].at <= log[j].at
  }

  function LastSent(log: seq<Attempt>, key: Key): Option<int> {
    if log == [] then None
    else
      var a := log[|log| - 1];
      if a.sent && a.key == key then Some(a.at) else LastSent(log[..|log| - 1], key)
  }

  /** The entry for a key holds the expiry of its last dispatch. */
  predicate Caches(cache: map<Key, int>, log: seq<Attempt>, key: Key) {
    match LastSent(log, key)
    case None => key !in cache
    case Some(at) => key in cache && cache[key] == at + COOLDOWN_SECONDS
  }

  /** In time order the last dispatch is the one that counts. */
  lemma {:induction false} RecentByLast(log: seq<Attempt>, key: Key, at: int)
    requires InTimeOrder(log)
    ensures Recent(log, |log|, key, at) <==>
            LastSent(log, key).Some? && at - LastSent(log, key).value < COOLDOWN_SECONDS
    ensures LastSent(log, key).Some? ==> exists k :: 0 <= k < |log| && log[k].at == LastSent(log, key).value
  {
    if log != [] {
      var front, a := log[..|log| - 1], log[|log| - 1];
      RecentByLast(front, key, at);
      assert forall k :: 0 <= k < |front| ==> log[k] == front[k];
      assert Recent(log, |log|, key, at) <==>
             Recent(front, |front|, key, at) || (a.key == key && a.sent && at - a.at < COOLDOWN_SECONDS);
    }
  }

  class Notifier {
    var cache: map<Key, int>
    ghost var log: seq<Attempt>

    ghost predicate Valid()
      reads this
    {
      Paced(log) && InTimeOrder(log) && forall key :: Caches(cache, log, key)
    }

    constructor ()
      ensures Valid() && log == []
    {
      cache, log := map[], [];
    }

    /** The clock does not run backwards between attempts; an entry read at its expiry is gone. */
    method SendAllNotifications(rule: Option<nat>, facility: Option<nat>, severity: AlarmEvents.Severity, now: int)
      returns (sent: bool)
      requires Valid() && forall k :: 0 <= k < |log| ==> log[k].at <= now
      modifies this
      ensures Valid()
      ensures var key := Key(if rule.Some? then rule.value else 0,
                         if facility.Some? then facility.value else 0, severity);
              && log == old(log) + [Attempt(key, now, sent)]
              && (sent <==> forall k :: 0 <= k < |old(log)| && old(log)[k].key == key && old(log)[k].sent ==>
                              now - old(log)[k].at >= 300)
    {
      var key := Key(if rule.Some? then rule.value else 0, if facility.Some? then facility.value else 0, severity);
      sent := !(key in cache && now < cache[key]);
      assert Caches(cache, log, key);
      RecentByLast(log, key, now);
      PacedOneMore(log, Attempt(key, now, sent));
      var after := if sent then cache[key := now + COOLDOWN_SECONDS] else cache;
      forall other
        ensures Caches(after, log + [Attempt(key, now, sent)], other)
      {
        CachesOneMore(cache, log, Attempt(key, now, sent), other);
      }
      cache := after;
      log := log + [Attempt(key, now, sent)];
    }
  }

  lemma {:induction false} PacedOneMore(log: seq<Attempt>, a: Attempt)
    requires Paced(log) && (a.sent <==> !Recent(log, |log|, a.key, a.at))
    ensures Paced(log + [a])
  {
    var more := log + [a];
    assert forall k :: 0 <= k < |log| ==> more[k] == log[k];
    forall j | 0 <= j < |more|
      ensures more[j].sent <==> !Recent(more, j, more[j].key, more[j].at)
    {
      assert Recent(more, j, more[j].key, more[j].at) <==> Recent(log, j, more[j].key, more[j].at);
    }
  }

  lemma {:induction false} CachesOneMore(cache: map<Key, int>, log: seq<Attempt>, a: Attempt, key: Key)
    requires Caches(cache, log, key)
    ensures Caches(if a.sent then cache[a.key := a.at + COOLDOWN_SECONDS] else cache, log + [a], key)
  {
    assert (log + [a])[..|log|] == log;
  }

  /** Nothing is suppressed without cause: a dispatch of the same key lies within the cooldown before it. */
  lemma {:induction false} SuppressionHasCause(log: seq<Attempt>, j: nat) returns (k: nat)
    requires Paced(log) && InTimeOrder(log) && j < |log| && !log[j].sent
    ensures k < j && log[k].sent && log[k].key == log[j].key
    ensures 0 <= log[j].at - log[k].at < 300
  {
    assert Recent(log, j, log[j].key, log[j].at);
    k :| 0 <= k < j && log[k].key == log[j].key && log[k].sent && log[j].at - log[k].at < COOLDOWN_SECONDS;
  }
}
