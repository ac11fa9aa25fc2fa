/** The alert de-duplication cache of the pod and node watchers. */
module AlertCache {

  type Key = string
  type Time = int

  /** An entry made at since no longer holds back an alert at now. */
  predicate CooledDown(since: Time, cooldown: int, now: Time) {
    now - since >= cooldown
  }

  /** The entries a sweep at time now keeps. */
  function Swept(cache: map<Key, Time>, cooldown: int, now: Time): map<Key, Time> {
    map k | k in cache && now - cache[k] <= cooldown :: cache[k]
  }

  class Cache {
    var alerts: map<Key, Time>
    const cooldown: int

    constructor (cooldown: int)
      ensures alerts == map[] && this.cooldown == cooldown
    {
      this.alerts := map[];
      this.cooldown := cooldown;
    }

    /** True if an alert for the key would be sent now. */
    method Check(key: Key, now: Time) returns (send: bool)
      ensures send <==> key !in alerts || now - alerts[key] >= cooldown
    {
      if key in alerts && now - alerts[key] < cooldown {
        return false;
      }
      return true;
    }

    method Mark(key: Key, now: Time)
      modifies this
      ensures alerts == old(alerts)[key := now]
    {
      alerts := alerts[key := now];
    }

    method Alert(key: Key, checkedAt: Time, markedAt: Time) returns (sent: bool)
      modifies this
      ensures sent <==> key !in old(alerts) || checkedAt - old(alerts)[key] >= cooldown
      ensures alerts == if sent then old(alerts)[key := markedAt] else old(alerts)
    {
      sent := Check(key, checkedAt);
      if sent {
        Mark(key, markedAt);
      }
    }

    /** The mute is stored as an alert that cools down when the duration has passed. */
    method MuteAlert(key: Key, now: Time, duration: int)
      modifies this
      ensures alerts.Keys == old(alerts).Keys + {key}
      ensures alerts[key] + cooldown == now + duration
      ensures forall t :: CooledDown(alerts[key], cooldown, t) <==> t >= now + duration
      ensures forall k :: k in alerts && k != key ==> alerts[k] == old(alerts)[k]
    {
      alerts := alerts[key := now + (duration - cooldown)];
    }

    /** Entries are deleted while the map is being ranged over, in any order. */
    method Cleanup(now: Time)
      modifies this
      ensures alerts == Swept(old(alerts), cooldown, now)
      ensures forall k :: k in alerts <==> k in old(alerts) && now - old(alerts)[k] <= cooldown
      ensures forall k :: k in alerts ==> alerts[k] == old(alerts)[k]
    {
      var keys := alerts.Keys;
      while keys != {}
        invariant keys <= alerts.Keys <= old(alerts).Keys
        invariant forall k :: k in alerts ==> alerts[k] == old(alerts)[k]
        invariant forall k :: k in old(alerts) && k !in keys ==> (k in alerts <==> now - old(alerts)[k] <= cooldown)
        decreases |keys|
      {
        var key :| key in keys;
        keys := keys - {key};
        if now - alerts[key] > cooldown {
          alerts := alerts - {key};
        }
      }
    }
  }
}
