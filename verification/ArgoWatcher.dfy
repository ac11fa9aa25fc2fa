/** The ArgoCD watcher: each poll compares the application list with the last known state. */
module ArgoWatcher {
  import opened Wrappers

  type Name = string

  /** details stands for the fields the watcher stores but does not compare. */
  datatype App = App(name: Name, syncStatus: string, healthStatus: string, details: string)

  datatype Notice = New(app: App) | Changed(prev: App, app: App) | Deleted(app: App)

  datatype Flags = Flags(onHealth: bool, onSync: bool)

  predicate Reportable(flags: Flags, prev: App, app: App) {
    (prev.healthStatus != app.healthStatus && flags.onHealth) || (prev.syncStatus != app.syncStatus && flags.onSync)
  }

  /** The list keyed by name; a later entry with the same name replaces an earlier one. */
  function Keyed(apps: seq<App>): map<Name, App> {
    if apps == [] then map[]
    else
      var last := apps[|apps| - 1];
      Keyed(apps[..|apps| - 1])[last.name := last]
  }

  /** What the first loop emits, application by application. */
  function ListNotices(flags: Flags, state: map<Name, App>, apps: seq<App>): seq<Notice> {
    if apps == [] then []
    else
      var front, app := apps[..|apps| - 1], apps[|apps| - 1];
      ListNotices(flags, state, front) + NoticeFor(flags, state + Keyed(front), app)
  }

  function NoticeFor(flags: Flags, state: map<Name, App>, app: App): seq<Notice> {
    if app.name !in state then [New(app)]
    else if Reportable(flags, state[app.name], app) then [Changed(state[app.name], app)]
    else []
  }

  predicate NoRepeats(notices: seq<Notice>) {
    forall i, j :: 0 <= i < j < |notices| ==> notices[i] != notices[j]
  }

  /** n announces that an application of the state, with a name among neither set, is gone. */
  predicate Announces(n: Notice, state: map<Name, App>, current: set<Name>, pending: set<Name>) {
    && n.Deleted?
    && n.app.name in state && state[n.app.name] == n.app
    && n.app.name !in current && n.app.name !in pending
  }

  /** One notice for each application whose name is no longer in the list, in any order. */
  ghost predicate DeletionsOf(state: map<Name, App>, apps: seq<App>, gone: seq<Notice>) {
    (forall n :: n in gone <==> Announces(n, state, Keyed(apps).Keys, {})) && NoRepeats(gone)
  }

  /** The tracked names that follow from the notices alone. */
  function Replay(names: set<Name>, notices: seq<Notice>): set<Name> {
    if notices == [] then names
    else
      var before := Replay(names, notices[..|notices| - 1]);
      match notices[|notices| - 1]
      case New(app) => before + {app.name}
      case Changed(_, _) => before
      case Deleted(app) => before - {app.name}
  }

  ghost predicate KeyedByName(state: map<Name, App>) {
    forall name :: name in state ==> state[name].name == name
  }

  lemma {:induction false} KeyedByNames(apps: seq<App>)
    ensures KeyedByName(Keyed(apps))
  {
    if apps != [] {
      KeyedByNames(apps[..|apps| - 1]);
    }
  }

  /** A name is a key exactly when some application of the list has it. */
  lemma {:induction false} KeyedHas(apps: seq<App>, name: Name)
    ensures name in Keyed(apps) <==> exists app :: app in apps && app.name == name
  {
    if apps != [] {
      var front, last := apps[..|apps| - 1], apps[|apps| - 1];
      KeyedHas(front, name);
      assert apps == front + [last];
    }
  }

  class Watcher {
    const flags: Flags
    var lastState: map<Name, App>
    var notices: seq<Notice>
    ghost var seed: set<Name>

    /** The tracked names are what the seed and all notices since say they are. */
    ghost predicate Valid()
      reads this
    {
      KeyedByName(lastState) && Replay(seed, notices) == lastState.Keys
    }

    constructor (flags: Flags)
      ensures Valid() && lastState == map[] && notices == [] && this.flags == flags
    {
      this.flags := flags;
      lastState, notices, seed := map[], [], {};
    }

    /** The first state is taken without notices. */
    method SeedInitialState(fetched: Result<seq<App>, string>)
      requires lastState == map[] && notices == []
      modifies this
      ensures Valid() && notices == []
      ensures lastState == if fetched.Success? then Keyed(fetched.value) else map[]
    {
      seed := {};
      if fetched.Failure? {
        return;
      }
      var apps := fetched.value;
      for i := 0 to |apps|
        invariant lastState == Keyed(apps[..i]) && notices == []
      {
        assert apps[..i + 1][..i] == apps[..i];
        lastState := lastState[apps[i].name := apps[i]];
      }
      assert apps[..|apps|] == apps;
      KeyedByNames(apps);
      seed := lastState.Keys;
    }

    method Poll(fetched: Result<seq<App>, string>) returns (ghost gone: seq<Notice>)
      requires Valid()
      modifies this`lastState, this`notices
      ensures Valid()
      ensures fetched.Failure? ==> lastState == old(lastState) && notices == old(notices)
      ensures fetched.Success? ==>
        && lastState == Keyed(fetched.value)
        && notices == old(notices) + ListNotices(flags, old(lastState), fetched.value) + gone
        && DeletionsOf(old(lastState), fetched.value, gone)
    {
      gone := [];
      if fetched.Failure? {
        return;
      }
      var apps := fetched.value;
      var currentNames := CompareList(apps);
      KeyedByNames(apps);
      MergedByName(old(lastState), apps);
      gone := DropMissing(currentNames);
      DroppedAreDeletions(old(lastState), apps, gone);
      OnlyListLeft(old(lastState), Keyed(apps), lastState);
      ReplayPoll(seed, old(notices), flags, old(lastState), apps, gone);
    }

    /** The loop over the fetched applications. */
    method CompareList(apps: seq<App>) returns (currentNames: set<Name>)
      modifies this`lastState, this`notices
      ensures currentNames == Keyed(apps).Keys
      ensures lastState == old(lastState) + Keyed(apps)
      ensures notices == old(notices) + ListNotices(flags, old(lastState), apps)
    {
      currentNames := {};
      ghost var state := lastState;
      ghost var keyed: map<Name, App>, listed: seq<Notice> := map[], [];
      for i := 0 to |apps|
        invariant keyed == Keyed(apps[..i]) && listed == ListNotices(flags, state, apps[..i])
        invariant currentNames == keyed.Keys && lastState == state + keyed && notices == old(notices) + listed
      {
        var app := apps[i];
        ListStep(flags, state, apps, i);
        listed := listed + NoticeFor(flags, state + keyed, app);
        MergeOne(state, keyed, app);
        keyed := keyed[app.name := app];
        currentNames := currentNames + {app.name};
        if app.name !in lastState {
          notices := notices + [New(app)];
          lastState := lastState[app.name := app];
          continue;
        }
        var prev := lastState[app.name];
        var healthChanged := prev.healthStatus != app.healthStatus;
        var syncChanged := prev.syncStatus != app.syncStatus;
        if (healthChanged && flags.onHealth) || (syncChanged && flags.onSync) {
          notices := notices + [Changed(prev, app)];
        }
        lastState := lastState[app.name := app];
      }
      assert apps[..|apps|] == apps;
    }

    /** The loop over the state, which deletes what the list no longer has. */
    method DropMissing(currentNames: set<Name>) returns (ghost gone: seq<Notice>)
      requires KeyedByName(lastState)
      modifies this`lastState, this`notices
      ensures Left(old(lastState), currentNames, {}, lastState)
      ensures notices == old(notices) + gone
      ensures Gone(old(lastState), currentNames, {}, gone)
    {
      gone := [];
      var names := lastState.Keys;
      ghost var state := lastState;
      while names != {}
        invariant names <= state.Keys
        invariant Left(state, currentNames, names, lastState)
        invariant notices == old(notices) + gone
        invariant Gone(state, currentNames, names, gone)
        decreases |names|
      {
        var name :| name in names;
        VisitOne(state, currentNames, names, lastState, gone, name);
        names := names - {name};
        if name !in currentNames {
          notices := notices + [Deleted(lastState[name])];
          gone := gone + [Deleted(lastState[name])];
          lastState := lastState - {name};
        }
      }
    }
  }

  /** What is left of the state: the names of the list and those still to be visited. */
  ghost predicate Left(state: map<Name, App>, current: set<Name>, pending: set<Name>, left: map<Name, App>) {
    && (forall name :: name in left <==> name in state && (name in current || name in pending))
    && (forall name :: name in left ==> left[name] == state[name])
  }

  ghost predicate Gone(state: map<Name, App>, current: set<Name>, pending: set<Name>, gone: seq<Notice>) {
    (forall n :: n in gone <==> Announces(n, state, current, pending)) && NoRepeats(gone)
  }

  lemma {:induction false} VisitOne(state: map<Name, App>, current: set<Name>, names: set<Name>, left: map<Name, App>,
                                    gone: seq<Notice>, name: Name)
    requires KeyedByName(state) && names <= state.Keys && name in names
    requires Left(state, current, names, left) && Gone(state, current, names, gone)
    ensures name in left && left[name] == state[name]
    ensures name in current ==> Left(state, current, names - {name}, left) && Gone(state, current, names - {name}, gone)
    ensures name !in current ==>
              && Left(state, current, names - {name}, left - {name})
              && Gone(state, current, names - {name}, gone + [Deleted(left[name])])
  {
    if name in current {
      forall n ensures Announces(n, state, current, names) <==> Announces(n, state, current, names - {name}) {
      }
    } else {
      GoneOne(state, current, names, gone, name);
    }
  }

  lemma {:induction false} GoneOne(state: map<Name, App>, current: set<Name>, names: set<Name>, gone: seq<Notice>,
                                   name: Name)
    requires KeyedByName(state) && name in names && name in state && name !in current
    requires Gone(state, current, names, gone)
    ensures Gone(state, current, names - {name}, gone + [Deleted(state[name])])
  {
    var added := Deleted(state[name]);
    assert !Announces(added, state, current, names);
    forall n ensures n in gone + [added] <==> Announces(n, state, current, names - {name}) {
      assert Announces(n, state, current, names - {name}) <==> Announces(n, state, current, names) || n == added;
    }
  }

  lemma {:induction false} ListStep(flags: Flags, state: map<Name, App>, apps: seq<App>, i: nat)
    requires i < |apps|
    ensures Keyed(apps[..i + 1]) == Keyed(apps[..i])[apps[i].name := apps[i]]
    ensures ListNotices(flags, state, apps[..i + 1]) ==
            ListNotices(flags, state, apps[..i]) + NoticeFor(flags, state + Keyed(apps[..i]), apps[i])
  {
    assert apps[..i + 1][..i] == apps[..i];
  }

  lemma MergeOne(state: map<Name, App>, keyed: map<Name, App>, app: App)
    ensures (state + keyed)[app.name := app] == state + keyed[app.name := app]
    ensures keyed[app.name := app].Keys == keyed.Keys + {app.name}
  {
  }

  lemma {:induction false} MergedByName(state: map<Name, App>, apps: seq<App>)
    requires KeyedByName(state)
    ensures KeyedByName(state + Keyed(apps))
  {
    KeyedByNames(apps);
  }

  lemma {:induction false} OnlyListLeft(state: map<Name, App>, keyed: map<Name, App>, left: map<Name, App>)
    requires Left(state + keyed, keyed.Keys, {}, left)
    ensures left == keyed
  {
  }

  lemma {:induction false} DroppedAreDeletions(state: map<Name, App>, apps: seq<App>, gone: seq<Notice>)
    requires Gone(state + Keyed(apps), Keyed(apps).Keys, {}, gone)
    ensures DeletionsOf(state, apps, gone)
  {
    forall n
      ensures Announces(n, state + Keyed(apps), Keyed(apps).Keys, {}) <==> Announces(n, state, Keyed(apps).Keys, {})
    {
    }
  }

  // ---------- Replaying the notices ----------

  lemma {:induction false} ReplayAppend(names: set<Name>, a: seq<Notice>, b: seq<Notice>)
    ensures Replay(names, a + b) == Replay(Replay(names, a), b)
  {
    if b == [] {
      assert a + b == a;
    } else {
      assert (a + b)[..|a + b| - 1] == a + b[..|b| - 1];
      ReplayAppend(names, a, b[..|b| - 1]);
    }
  }

  lemma {:induction false} ReplayOne(names: set<Name>, flags: Flags, state: map<Name, App>, app: App)
    requires names == state.Keys
    ensures Replay(names, NoticeFor(flags, state, app)) == names + {app.name}
  {
    var notice := NoticeFor(flags, state, app);
    if notice != [] {
      assert Replay(names, notice[..0]) == names;
    }
  }

  lemma {:induction false} ReplayList(flags: Flags, state: map<Name, App>, apps: seq<App>)
    ensures Replay(state.Keys, ListNotices(flags, state, apps)) == state.Keys + Keyed(apps).Keys
  {
    if apps != [] {
      var front, app := apps[..|apps| - 1], apps[|apps| - 1];
      ReplayList(flags, state, front);
      var merged := state + Keyed(front);
      ReplayAppend(state.Keys, ListNotices(flags, state, front), NoticeFor(flags, merged, app));
      ReplayOne(merged.Keys, flags, merged, app);
    }
  }

  function GoneNames(gone: seq<Notice>): set<Name> {
    if gone == [] then {}
    else
      var last := gone[|gone| - 1];
      GoneNames(gone[..|gone| - 1]) + (if last.Deleted? then {last.app.name} else {})
  }

  lemma {:induction false} GoneNamesHas(gone: seq<Notice>, name: Name)
    ensures name in GoneNames(gone) <==> exists n :: n in gone && n.Deleted? && n.app.name == name
  {
    if gone != [] {
      var front, last := gone[..|gone| - 1], gone[|gone| - 1];
      GoneNamesHas(front, name);
      assert gone == front + [last];
    }
  }

  lemma {:induction false} ReplayDeletions(names: set<Name>, gone: seq<Notice>)
    requires forall n :: n in gone ==> n.Deleted?
    ensures Replay(names, gone) == names - GoneNames(gone)
  {
    if gone != [] {
      ReplayDeletions(names, gone[..|gone| - 1]);
      assert gone[|gone| - 1].Deleted?;
    }
  }

  lemma {:induction false} DeletionNames(state: map<Name, App>, apps: seq<App>, gone: seq<Notice>)
    requires KeyedByName(state) && DeletionsOf(state, apps, gone)
    ensures GoneNames(gone) == state.Keys - Keyed(apps).Keys
  {
    forall name ensures name in GoneNames(gone) <==> name in state.Keys - Keyed(apps).Keys {
      GoneNamesHas(gone, name);
      if name in state && name !in Keyed(apps) {
        assert Announces(Deleted(state[name]), state, Keyed(apps).Keys, {});
      }
    }
  }

  /** The notices of a poll turn the names of the old state into the names of the new one. */
  lemma {:induction false} ReplayPoll(seed: set<Name>, before: seq<Notice>, flags: Flags, state: map<Name, App>,
                                      apps: seq<App>, gone: seq<Notice>)
    requires Replay(seed, before) == state.Keys && KeyedByName(state) && DeletionsOf(state, apps, gone)
    ensures Replay(seed, before + ListNotices(flags, state, apps) + gone) == Keyed(apps).Keys
  {
    var listed := ListNotices(flags, state, apps);
    ReplayAppend(seed, before, listed);
    ReplayAppend(seed, before + listed, gone);
    ReplayList(flags, state, apps);
    ReplayDeletions(state.Keys + Keyed(apps).Keys, gone);
    DeletionNames(state, apps, gone);
  }

  // ---------- Which notices a poll emits ----------

  ghost predicate DistinctNames(apps: seq<App>) {
    forall i, j :: 0 <= i < j < |apps| ==> apps[i].name != apps[j].name
  }

  /** The notice n is due for one of the applications. */
  ghost predicate Due(flags: Flags, state: map<Name, App>, apps: seq<App>, n: Notice) {
    match n
    case New(app) => app in apps && app.name !in state
    case Changed(prev, app) =>
      app in apps && app.name in state && prev == state[app.name] && Reportable(flags, prev, app)
    case Deleted(_) => false
  }

  lemma {:induction false} DueAppend(flags: Flags, state: map<Name, App>, front: seq<App>, app: App, n: Notice)
    requires app.name !in Keyed(front)
    ensures Due(flags, state, front + [app], n) <==>
            Due(flags, state, front, n) || n in NoticeFor(flags, state + Keyed(front), app)
    ensures Due(flags, state, front, n) ==> n !in NoticeFor(flags, state + Keyed(front), app)
  {
    KeyedHas(front, app.name);
    assert app.name in state + Keyed(front) <==> app.name in state;
    assert app !in front;
  }

  lemma {:induction false} NameNotInFront(apps: seq<App>)
    requires DistinctNames(apps) && apps != []
    ensures DistinctNames(apps[..|apps| - 1]) && apps[|apps| - 1].name !in Keyed(apps[..|apps| - 1])
  {
    var front, app := apps[..|apps| - 1], apps[|apps| - 1];
    assert forall i :: 0 <= i < |front| ==> front[i] == apps[i];
    KeyedHas(front, app.name);
  }

  /** Which notices are due, spelled out: a change counts if the flag for what changed is set. */
  lemma DueIff(flags: Flags, state: map<Name, App>, apps: seq<App>, prev: App, app: App)
    ensures Due(flags, state, apps, New(app)) <==> app in apps && app.name !in state
    ensures Due(flags, state, apps, Changed(prev, app)) <==>
      && app in apps && app.name in state && prev == state[app.name]
      && (|| (flags.onHealth && prev.healthStatus != app.healthStatus)
          || (flags.onSync && prev.syncStatus != app.syncStatus))
  {
  }

  /** For a list with distinct names, new exactly for added names, changed exactly for kept names with
      a change that the flags ask for. */
  lemma {:induction false} NoticesReported(flags: Flags, state: map<Name, App>, apps: seq<App>, prev: App, app: App)
    requires DistinctNames(apps)
    ensures New(app) in ListNotices(flags, state, apps) <==> app in apps && app.name !in state
    ensures Changed(prev, app) in ListNotices(flags, state, apps) <==>
      && app in apps && app.name in state && prev == state[app.name]
      && (|| (flags.onHealth && prev.healthStatus != app.healthStatus)
          || (flags.onSync && prev.syncStatus != app.syncStatus))
  {
    NoticesExact(flags, state, apps, New(app));
    NoticesExact(flags, state, apps, Changed(prev, app));
    DueIff(flags, state, apps, prev, app);
  }

  /** With both flags, as the program sets them, every change of health or sync status is announced. */
  lemma {:induction false} ChangesAnnounced(state: map<Name, App>, apps: seq<App>, prev: App, app: App)
    requires DistinctNames(apps)
    ensures Changed(prev, app) in ListNotices(Flags(true, true), state, apps) <==>
      && app in apps && app.name in state && prev == state[app.name]
      && (prev.healthStatus != app.healthStatus || prev.syncStatus != app.syncStatus)
  {
    NoticesReported(Flags(true, true), state, apps, prev, app);
  }

  /** For every list, also with repeated names: notices come in its order, and an entry is compared
      with the last earlier entry of its name or, if there is none, with the old state. */
  lemma {:induction false} NextNotice(flags: Flags, state: map<Name, App>, apps: seq<App>, app: App)
    ensures
      var known := state + Keyed(apps);
      ListNotices(flags, state, apps + [app]) == ListNotices(flags, state, apps) +
        if app.name !in known then [New(app)]
        else if (flags.onHealth && known[app.name].healthStatus != app.healthStatus)
                || (flags.onSync && known[app.name].syncStatus != app.syncStatus) then [Changed(known[app.name], app)]
        else []
  {
    assert (apps + [app])[..|apps|] == apps;
  }

  /** The notices that follow: each application of the old state whose name the list lacks, as it was
      stored, and each once. */
  lemma {:induction false} DeletionsExact(state: map<Name, App>, apps: seq<App>, gone: seq<Notice>, app: App)
    requires KeyedByName(state) && DeletionsOf(state, apps, gone)
    ensures Deleted(app) in gone <==>
      app.name in state && state[app.name] == app && forall a :: a in apps ==> a.name != app.name
    ensures forall n :: n in gone ==> n.Deleted?
    ensures forall i, j :: 0 <= i < j < |gone| ==> gone[i] != gone[j]
  {
    KeyedHas(apps, app.name);
    assert Announces(Deleted(app), state, Keyed(apps).Keys, {}) <==> Deleted(app) in gone;
  }

  /** Of several entries with one name the last is kept. */
  lemma {:induction false} LastIsKept(apps: seq<App>, k: nat)
    requires k < |apps| && forall j :: k < j < |apps| ==> apps[j].name != apps[k].name
    ensures apps[k].name in Keyed(apps) && Keyed(apps)[apps[k].name] == apps[k]
    decreases |apps|
  {
    if k < |apps| - 1 {
      assert apps[..|apps| - 1][k] == apps[k];
      LastIsKept(apps[..|apps| - 1], k);
    }
  }

  /** For a list with distinct names: new exactly for added names, changed exactly for kept names
      with a reportable difference, each at most once. */
  lemma {:induction false} NoticesExact(flags: Flags, state: map<Name, App>, apps: seq<App>, n: Notice)
    requires DistinctNames(apps)
    ensures n in ListNotices(flags, state, apps) <==> Due(flags, state, apps, n)
    ensures multiset(ListNotices(flags, state, apps))[n] <= 1
  {
    if apps != [] {
      var front, app := apps[..|apps| - 1], apps[|apps| - 1];
      NameNotInFront(apps);
      NoticesExact(flags, state, front, n);
      assert apps == front + [app];
      DueAppend(flags, state, front, app, n);
      var listed, notice := ListNotices(flags, state, front), NoticeFor(flags, state + Keyed(front), app);
      assert multiset(listed + notice) == multiset(listed) + multiset(notice);
      assert n in listed <==> multiset(listed)[n] > 0;
    }
  }
}
