/** The `SessionTable` object of proxy/session.py. */
module SessionTables {
  import opened Prelude
  import opened SessionState
  import opened Sessions
  import Spec = DownstreamSpec
  import Laws = DownstreamLaws

  lemma MovedInTable(before: Spec.Table, after: Spec.Table, oldKey: string, newKey: string)
    requires oldKey in before && oldKey != newKey
    requires after.Keys == before.Keys - {oldKey} + {newKey}
    requires after[newKey] == before[oldKey].(key := newKey)
    requires forall k :: k in after && k != newKey ==> after[k] == before[k]
    ensures after == Spec.Rekey(before, oldKey, newKey)
  {
  }

  ghost predicate AllApart(sessions: map<string, Session>) {
    forall k, l :: k in sessions && l in sessions && k != l ==> sessions[k].Apart(sessions[l])
  }

  lemma MovedStaysApart(sessions: map<string, Session>, oldKey: string, newKey: string)
    requires AllApart(sessions) && oldKey in sessions && oldKey != newKey
    ensures AllApart((sessions - {oldKey})[newKey := sessions[oldKey]])
  {
  }

  lemma AddedStaysApart(sessions: map<string, Session>, key: string, s: Session)
    requires AllApart(sessions) && key !in sessions
    requires forall k :: k in sessions ==> s.Apart(sessions[k]) && sessions[k].Apart(s)
    ensures AllApart(sessions[key := s])
  {
  }

  class SessionTable {
    const settings: Settings
    var sessions: map<string, Session>

    constructor (settings: Settings)
      ensures this.settings == settings && sessions == map[] && Valid()
    {
      this.settings := settings;
      sessions := map[];
    }

    ghost function Objects(): set<object>
      reads this
    {
      set key, o | key in sessions && o in sessions[key].Repr() :: o
    }

    /** Each session under its own key, and no two keys for the same objects. */
    ghost predicate Valid()
      reads this, set key | key in sessions :: sessions[key]
    {
      && (forall key :: key in sessions ==>
            sessions[key].Valid() && sessions[key].settings == settings && sessions[key].key == key)
      && AllApart(sessions)
    }

    ghost function View(): Spec.Table
      reads this, Objects()
    {
      map key | key in sessions :: sessions[key].View()
    }

    /** A session's objects are the table's. */
    lemma Holds(key: string)
      requires key in sessions
      ensures sessions[key].Repr() <= Objects()
      ensures View()[key] == sessions[key].View()
    {
    }

    /** What the table shows when only the session under `key` differs from what it showed before. */
    lemma Differs(key: string, before: Spec.Table)
      requires key in sessions && before.Keys == sessions.Keys
      requires forall k :: k in sessions && k != key ==> sessions[k].View() == before[k]
      ensures View() == before[key := sessions[key].View()]
    {
    }

    method GetOrCreate(key: string) returns (s: Session)
      requires Valid()
      modifies this`sessions
      ensures Valid() && key in sessions && sessions[key] == s
      ensures s.View() == old(Spec.SessionAt(settings, View(), key))
      ensures View() == old(View())[key := s.View()]
      ensures key in old(sessions) ==> sessions == old(sessions)
      ensures key !in old(sessions) ==> sessions == old(sessions)[key := s] && fresh(s.Repr())
    {
      ghost var before := View();
      if key in sessions {
        s := sessions[key];
        assert before[key] == s.View();
      } else {
        s := new Session(key, settings);
        assert View() == before;
        Add(s);
      }
    }

    /** `self._sessions[s.key] = s` for a session of its own objects. */
    method Add(s: Session)
      requires Valid() && s.key !in sessions && s.Valid() && s.settings == settings
      requires forall k :: k in sessions ==> s.Apart(sessions[k]) && sessions[k].Apart(s)
      modifies this`sessions
      ensures Valid() && sessions == old(sessions)[s.key := s]
      ensures View() == old(View())[s.key := s.View()]
    {
      hide AllApart;
      AddedStaysApart(sessions, s.key, s);
      sessions := sessions[s.key := s];
    }

    method Rekey(oldKey: string, newKey: string)
      requires Valid()
      modifies this`sessions, if oldKey in sessions then {sessions[oldKey]} else {}
      ensures Valid() && View() == Spec.Rekey(old(View()), oldKey, newKey)
      ensures oldKey in old(sessions) ==>
                && newKey in sessions && sessions[newKey] == old(sessions[oldKey])
                && sessions[newKey].View() == old(sessions[oldKey].View()).(key := newKey)
    {
      if oldKey in sessions && oldKey != newKey {
        var s := sessions[oldKey];
        MovedStaysApart(sessions, oldKey, newKey);
        s.SetKey(newKey);
        sessions := (sessions - {oldKey})[newKey := s];
        ghost var before, after := old(View()), View();
        assert after[newKey] == before[oldKey].(key := newKey);
        forall k | k in after && k != newKey ensures after[k] == before[k] && sessions[k].key == k {
          assert sessions[k].Apart(s);
        }
        MovedInTable(before, after, oldKey, newKey);
      }
    }

    method Drop(key: string)
      requires Valid()
      modifies this`sessions
      ensures Valid() && View() == old(View()) - {key}
    {
      sessions := sessions - {key};
    }

    /** `overdue` holds the keys the clock finds too old; a session that has ended is not swept out. */
    method ReapIdle(overdue: set<string>)
      requires Valid()
      modifies this`sessions
      ensures Valid() && View() == Laws.ReapIdle(old(View()), overdue)
    {
      hide Session.ServerView, Session.SupplicantView;
      var stale := set key | key in overdue && key in sessions && sessions[key].result.None?;
      ghost var before := View();
      assert stale == set key | key in overdue && key in before && before[key].result.None?;
      sessions := sessions - stale;
      Without(before, View(), stale);
    }
  }
}
