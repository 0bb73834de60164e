/**
  The user profile's record of versions, and how online data is written into it. Each mod is reported
  once: while its profile stays as it is, the same data is never reported as new again.
 */
module UserProfile {
  import opened Text
  import opened Versions

  datatype Json = Null | Str(s: string) | Obj(members: map<string, Json>) | Other(which: nat)

  /**
    What is read out of the online data: the application's version, and for each mod its version.
    None stands for the exception of a missing member, or of one of another type.
   */
  datatype Online = Online(app: Option<string>, mods: Option<map<string, Option<string>>>)

  datatype Status = Status(appUpdateAvailable: bool, modUpdatesAvailable: nat, newUpdatesFound: bool)

  datatype Result = Result(profile: map<string, Json>, saved: bool, status: Status)

  function Member(members: map<string, Json>, key: string): Json {
    if key in members then members[key] else Null
  }

  /** The object there, or a new one in place of anything else. */
  function Object(j: Json): map<string, Json> { if j.Obj? then j.members else map[] }

  function PreviousVersion(members: map<string, Json>): string {
    var v := Member(members, "latestVersion");
    if v.Str? then v.s else ""
  }

  function WithLatest(members: map<string, Json>, version: string): map<string, Json> {
    members["latestVersion" := Str(version)]
  }

  // ---------------------------------------------------------------- what is reported

  ghost predicate AppUpdate(app: map<string, Json>, online: string) {
    online != "" && Member(app, "version").Str? && Less(Member(app, "version").s, online)
  }

  /** Any other version counts, and anything that is not a string. */
  predicate ModUpdate(mod: map<string, Json>, online: string) {
    online != "" && "version" in mod && mod["version"] != Str(online)
  }

  /** An update is new when none was known, or when the known one has been installed since. */
  predicate IsNews(members: map<string, Json>) {
    PreviousVersion(members) == "" || Member(members, "version") == Str(PreviousVersion(members))
  }

  /** The mods that the online data and the profile have in common. */
  ghost function Common(profile: map<string, Json>, mods: map<string, Option<string>>): set<string> {
    mods.Keys * Object(Member(profile, "mods")).Keys
  }

  ghost function Updatable(mods: map<string, Json>, online: map<string, Option<string>>, names: set<string>): set<string>
    requires forall n :: n in names ==> n in mods && n in online && online[n].Some?
  {
    set n | n in names && ModUpdate(Object(mods[n]), online[n].value)
  }

  ghost predicate SomeNews(mods: map<string, Json>, online: map<string, Option<string>>, names: set<string>)
    requires forall n :: n in names ==> n in mods && n in online && online[n].Some?
  {
    exists n :: n in Updatable(mods, online, names) && IsNews(Object(mods[n]))
  }

  /** The mods' records when these have got their latest versions. */
  ghost function Recorded(mods: map<string, Json>, online: map<string, Option<string>>, names: set<string>)
    : map<string, Json>
    requires forall n :: n in names ==> n in mods && n in online && online[n].Some?
  {
    map n | n in mods :: if n in names then Obj(WithLatest(Object(mods[n]), online[n].value)) else mods[n]
  }

  /** The online data could be read as far as it is needed. */
  ghost predicate Readable(profile: map<string, Json>, online: Online) {
    && online.app.Some? && online.mods.Some?
    && forall n :: n in Common(profile, online.mods.value) ==> online.mods.value[n].Some?
  }

  ghost function NewProfile(profile: map<string, Json>, online: Online): map<string, Json>
    requires Readable(profile, online)
  {
    profile["app" := Obj(WithLatest(Object(Member(profile, "app")), online.app.value))]
    ["mods" := Obj(Recorded(Object(Member(profile, "mods")), online.mods.value, Common(profile, online.mods.value)))]
  }

  ghost function NewStatus(profile: map<string, Json>, online: Online): Status
    requires Readable(profile, online)
  {
    var app, mods := Object(Member(profile, "app")), Object(Member(profile, "mods"));
    var common := Common(profile, online.mods.value);
    Status(AppUpdate(app, online.app.value), |Updatable(mods, online.mods.value, common)|,
           (AppUpdate(app, online.app.value) && IsNews(app)) || SomeNews(mods, online.mods.value, common))
  }

  // ---------------------------------------------------------------- the update

  method UpdateApp(profile: map<string, Json>, online: string)
    returns (newProfile: map<string, Json>, updated: bool, available: bool, news: bool)
    ensures newProfile == profile["app" := Obj(WithLatest(Object(Member(profile, "app")), online))]
    ensures updated <==> newProfile != profile
    ensures available <==> AppUpdate(Object(Member(profile, "app")), online)
    ensures news <==> available && IsNews(Object(Member(profile, "app")))
  {
    updated, available, news := false, false, false;
    var app := Member(profile, "app");
    if !app.Obj? {
      app := Obj(map[]);
      updated := true;
    }
    var prevLatestVersion := PreviousVersion(app.members);
    var latest := WithLatest(app.members, online);
    if Member(app.members, "latestVersion") != Str(online) {
      updated := true;
    } else {
      assert latest == app.members;
    }
    newProfile := profile["app" := Obj(latest)];
    if online != "" && Member(latest, "version").Str? {
      var less := VersionLessThan(Member(latest, "version").s, online);
      if less {
        available := true;
        news := prevLatestVersion == "" || Member(latest, "version") == Str(prevLatestVersion);
      }
    }
  }

  /** One entry of the online data. */
  method UpdateMod(mod: Json, online: string) returns (newMod: Json, updated: bool, available: bool, news: bool)
    ensures newMod == Obj(WithLatest(Object(mod), online))
    ensures updated <==> newMod != mod
    ensures available <==> ModUpdate(Object(mod), online)
    ensures news <==> available && IsNews(Object(mod))
  {
    var members := Object(mod);
    updated := !mod.Obj?;
    var prevLatestModVersion := PreviousVersion(members);
    var latest := WithLatest(members, online);
    if Member(members, "latestVersion") != Str(online) {
      updated := true;
    } else {
      assert latest == members;
    }
    newMod := Obj(latest);
    available, news := false, false;
    if online != "" && "version" in latest && latest["version"] != Str(online) {
      available := true;
      news := prevLatestModVersion == "" || latest["version"] == Str(prevLatestModVersion);
    }
  }

  lemma OneMore(mods: map<string, Json>, online: map<string, Option<string>>, names: set<string>, name: string)
    requires forall n :: n in names + {name} ==> n in mods && n in online && online[n].Some?
    requires name !in names
    ensures Recorded(mods, online, names + {name})
      == Recorded(mods, online, names)[name := Obj(WithLatest(Object(mods[name]), online[name].value))]
    ensures Recorded(mods, online, names)[name] == mods[name]
    ensures Updatable(mods, online, names + {name})
      == Updatable(mods, online, names) + if ModUpdate(Object(mods[name]), online[name].value) then {name} else {}
  {
  }

  lemma StillDifferent(mods: map<string, Json>, online: map<string, Option<string>>, names: set<string>, name: string)
    requires forall n :: n in names + {name} ==> n in mods && n in online && online[n].Some?
    requires name !in names
    ensures Recorded(mods, online, names + {name}) != mods <==>
      Recorded(mods, online, names) != mods || Obj(WithLatest(Object(mods[name]), online[name].value)) != mods[name]
  {
    var before, after := Recorded(mods, online, names), Recorded(mods, online, names + {name});
    OneMore(mods, online, names, name);
    if before != mods {
      var n :| n in mods && before[n] != mods[n];
      assert after[n] == before[n];
    }
    if before == mods && Obj(WithLatest(Object(mods[name]), online[name].value)) == mods[name] {
      assert after == mods;
    }
  }

  /** The records so far, whether one was changed, how many updates there are, and whether one is new. */
  datatype Progress = Progress(mods: map<string, Json>, updated: bool, available: nat, news: bool)

  /** What the loop has done when it has seen these of the mods in common. */
  ghost predicate Seen(mods: map<string, Json>, online: map<string, Option<string>>, done: set<string>, p: Progress) {
    && (forall n :: n in done ==> n in mods && n in online && online[n].Some?)
    && p.mods == Recorded(mods, online, done) && (p.updated <==> p.mods != mods)
    && p.available == |Updatable(mods, online, done)| && (p.news <==> SomeNews(mods, online, done))
  }

  lemma NewsOneMore(mods: map<string, Json>, online: map<string, Option<string>>, names: set<string>, name: string)
    requires forall n :: n in names + {name} ==> n in mods && n in online && online[n].Some?
    requires name !in names
    ensures |Updatable(mods, online, names + {name})|
      == |Updatable(mods, online, names)| + if ModUpdate(Object(mods[name]), online[name].value) then 1 else 0
    ensures SomeNews(mods, online, names + {name}) <==>
      SomeNews(mods, online, names) || (ModUpdate(Object(mods[name]), online[name].value) && IsNews(Object(mods[name])))
  {
    OneMore(mods, online, names, name);
    assert name !in Updatable(mods, online, names);
  }

  lemma SeenOneMore(
    mods: map<string, Json>, online: map<string, Option<string>>, done: set<string>, p: Progress, key: string)
    requires Seen(mods, online, done, p) && key in mods && key in online && online[key].Some? && key !in done
    ensures key in p.mods && p.mods[key] == mods[key]
    ensures
      var mod := Obj(WithLatest(Object(mods[key]), online[key].value));
      var more := ModUpdate(Object(mods[key]), online[key].value);
      Seen(mods, online, done + {key},
           Progress(p.mods[key := mod], p.updated || mod != mods[key], p.available + (if more then 1 else 0),
                    p.news || (more && IsNews(Object(mods[key])))))
  {
    OneMore(mods, online, done, key);
    StillDifferent(mods, online, done, key);
    NewsOneMore(mods, online, done, key);
  }

  /** One turn of the loop, for a mod that the profile has. */
  method UpdateNext(
    ghost mods: map<string, Json>, online: map<string, Option<string>>, ghost done: set<string>, p: Progress, key: string)
    returns (next: Progress)
    requires Seen(mods, online, done, p) && key in p.mods && key in online && online[key].Some? && key !in done
    ensures Seen(mods, online, done + {key}, next) && next.mods.Keys == p.mods.Keys
  {
    SeenOneMore(mods, online, done, p, key);
    var mod, changed, more, new_ := UpdateMod(p.mods[key], online[key].value);
    next := Progress(p.mods[key := mod], p.updated || changed, p.available + (if more then 1 else 0), p.news || new_);
  }

  /** Every mod in common has a version in the online data. */
  ghost predicate AllReadable(mods: map<string, Json>, online: map<string, Option<string>>) {
    forall n :: n in online.Keys * mods.Keys ==> online[n].Some?
  }

  lemma NotReadable(
    mods: map<string, Json>, online: map<string, Option<string>>, done: set<string>, p: Progress, key: string)
    requires Seen(mods, online, done, p) && key in p.mods && key in online && online[key].None?
    ensures !AllReadable(mods, online)
  {
    assert key in online.Keys * mods.Keys;
  }

  lemma NoneSeen(mods: map<string, Json>, online: map<string, Option<string>>)
    ensures Seen(mods, online, {}, Progress(mods, false, 0, false))
  {
    assert Recorded(mods, online, {}) == mods && Updatable(mods, online, {}) == {};
  }

  lemma AllSeen(mods: map<string, Json>, online: map<string, Option<string>>, done: set<string>, p: Progress)
    requires Seen(mods, online, done, p) && done == online.Keys * mods.Keys
    ensures AllReadable(mods, online)
  {
  }

  /** The loop over the online data's mods; false stands for an exception. */
  method UpdateMods(mods: map<string, Json>, online: map<string, Option<string>>) returns (ok: bool, p: Progress)
    ensures ok <==> AllReadable(mods, online)
    ensures ok ==> Seen(mods, online, online.Keys * mods.Keys, p)
  {
    p := Progress(mods, false, 0, false);
    var todo := online.Keys;
    ghost var done: set<string> := {};
    NoneSeen(mods, online);
    while todo != {}
      invariant todo <= online.Keys && done == (online.Keys - todo) * p.mods.Keys && p.mods.Keys == mods.Keys
      invariant Seen(mods, online, done, p)
    {
      var key :| key in todo;
      todo := todo - {key};
      if key in p.mods {
        if online[key].None? {
          NotReadable(mods, online, done, p, key);
          return false, p;
        }
        p := UpdateNext(mods, online, done, p, key);
        done := done + {key};
      }
    }
    assert done == online.Keys * mods.Keys;
    AllSeen(mods, online, done, p);
    ok := true;
  }

  method UpdateContentWithOnlineData(profile: map<string, Json>, online: Online) returns (r: Option<Result>)
    ensures r.Some? <==> Readable(profile, online)
    ensures r.Some? ==>
      r.value == Result(NewProfile(profile, online), NewProfile(profile, online) != profile, NewStatus(profile, online))
  {
    if online.app.None? { return None; }
    var withApp, updated, appAvailable, news := UpdateApp(profile, online.app.value);
    var mods := Member(withApp, "mods");
    if !mods.Obj? {
      mods := Obj(map[]);
      updated := true;
    }
    if online.mods.None? { return None; }
    var ok, p := UpdateMods(mods.members, online.mods.value);
    if !ok { return None; }
    var newProfile := withApp["mods" := Obj(p.mods)];
    assert newProfile == NewProfile(profile, online);
    r := Some(Result(newProfile, updated || p.updated, Status(appAvailable, p.available, news || p.news)));
  }

  // ---------------------------------------------------------------- the same data again

  /** The same data changes nothing the second time, counts the same updates, and none of them is new. */
  lemma NotifiedOnce(profile: map<string, Json>, online: Online)
    requires Readable(profile, online)
    ensures
      var again := NewProfile(profile, online);
      && Readable(again, online)
      && NewProfile(again, online) == again
      && NewStatus(again, online) == NewStatus(profile, online).(newUpdatesFound := false)
  {
    var again := NewProfile(profile, online);
    var app, mods := Object(Member(profile, "app")), Object(Member(profile, "mods"));
    var names := Common(profile, online.mods.value);
    var app', mods' := Object(Member(again, "app")), Object(Member(again, "mods"));
    assert app' == WithLatest(app, online.app.value) && mods' == Recorded(mods, online.mods.value, names);
    assert Common(again, online.mods.value) == names;
    AppNotifiedOnce(app, online.app.value);
    ModsNotifiedOnce(mods, online.mods.value, names);
    assert NewProfile(again, online) == again;
  }

  lemma AgainTheSame(members: map<string, Json>, version: string)
    ensures WithLatest(WithLatest(members, version), version) == WithLatest(members, version)
  {
  }

  lemma AppNotifiedOnce(app: map<string, Json>, online: string)
    ensures var app' := WithLatest(app, online);
      && (AppUpdate(app', online) <==> AppUpdate(app, online))
      && !(AppUpdate(app', online) && IsNews(app')) && WithLatest(app', online) == app'
  {
    StrictWeakOrder(online, online, online);
  }

  lemma ModsNotifiedOnce(mods: map<string, Json>, online: map<string, Option<string>>, names: set<string>)
    requires forall n :: n in names ==> n in mods && n in online && online[n].Some?
    ensures var mods' := Recorded(mods, online, names);
      && Updatable(mods', online, names) == Updatable(mods, online, names)
      && !SomeNews(mods', online, names) && Recorded(mods', online, names) == mods'
  {
    var mods' := Recorded(mods, online, names);
    forall n | n in names
      ensures ModUpdate(Object(mods'[n]), online[n].value) <==> ModUpdate(Object(mods[n]), online[n].value)
      ensures ModUpdate(Object(mods'[n]), online[n].value) ==> !IsNews(Object(mods'[n]))
      ensures Obj(WithLatest(Object(mods'[n]), online[n].value)) == mods'[n]
    {
      assert mods'[n] == Obj(WithLatest(Object(mods[n]), online[n].value));
      AgainTheSame(Object(mods[n]), online[n].value);
    }
  }

  // ---------------------------------------------------------------- what the status says

  /** No version was known before, or the known one is the one that is installed. */
  lemma NewsExactly(members: map<string, Json>)
    ensures IsNews(members) <==>
      || "latestVersion" !in members || !members["latestVersion"].Str? || members["latestVersion"].s == ""
      || ("version" in members && members["version"] == members["latestVersion"])
  {
  }

  /**
    The application's part of the status, from the profile itself: an update is available if the
    installed version is a lower one, and new if none was known or the known one is installed by now.
   */
  lemma AppStatusExactly(profile: map<string, Json>, online: Online, app: map<string, Json>)
    requires Readable(profile, online) && "app" in profile && profile["app"] == Obj(app)
    ensures NewStatus(profile, online).appUpdateAvailable <==>
      online.app.value != "" && "version" in app && app["version"].Str? && Less(app["version"].s, online.app.value)
    ensures
      && online.app.value != "" && "version" in app && app["version"].Str? && Less(app["version"].s, online.app.value)
      && ("latestVersion" !in app || !app["latestVersion"].Str? || app["latestVersion"].s == ""
          || app["latestVersion"] == app["version"])
      ==> NewStatus(profile, online).newUpdatesFound
  {
    NewsExactly(app);
  }

  /** A mod of the profile whose installed version is not the online one. */
  predicate Outdated(mods: map<string, Json>, online: map<string, Option<string>>, n: string) {
    && n in mods && mods[n].Obj? && n in online && online[n].Some? && online[n].value != ""
    && "version" in mods[n].members && mods[n].members["version"] != Str(online[n].value)
  }

  /** The mods' part: so many are outdated, and one of these is new if none was known or the known one is installed. */
  lemma ModStatusExactly(profile: map<string, Json>, online: Online, mods: map<string, Json>)
    requires Readable(profile, online) && "mods" in profile && profile["mods"] == Obj(mods)
    ensures NewStatus(profile, online).modUpdatesAvailable == |set n | n in mods && Outdated(mods, online.mods.value, n)|
    ensures
      (exists n :: Outdated(mods, online.mods.value, n)
         && ("latestVersion" !in mods[n].members || !mods[n].members["latestVersion"].Str?
             || mods[n].members["latestVersion"].s == ""
             || mods[n].members["latestVersion"] == mods[n].members["version"]))
      ==> NewStatus(profile, online).newUpdatesFound
    ensures
      NewStatus(profile, online).newUpdatesFound && !NewStatus(profile, online).appUpdateAvailable ==>
      exists n :: Outdated(mods, online.mods.value, n)
         && ("latestVersion" !in mods[n].members || !mods[n].members["latestVersion"].Str?
             || mods[n].members["latestVersion"].s == ""
             || mods[n].members["latestVersion"] == mods[n].members["version"])
  {
    var common := Common(profile, online.mods.value);
    assert Updatable(mods, online.mods.value, common) == set n | n in mods && Outdated(mods, online.mods.value, n);
    forall n | n in mods && Outdated(mods, online.mods.value, n)
      ensures n in Updatable(mods, online.mods.value, common)
      ensures Object(mods[n]) == mods[n].members
    {
    }
  }

  /** The latest versions are recorded, and nothing else in the profile changes. */
  lemma RecordsExactly(profile: map<string, Json>, online: Online, key: string)
    requires Readable(profile, online) && key in profile
    ensures
      var again := NewProfile(profile, online);
      && key in again
      && (key != "app" && key != "mods" ==> again[key] == profile[key])
      && (key == "app" && profile[key].Obj? ==>
            again[key] == Obj(profile[key].members["latestVersion" := Str(online.app.value)]))
      && (key == "mods" && profile[key].Obj? ==>
            && again[key].Obj? && again[key].members.Keys == profile[key].members.Keys
            && forall n :: n in profile[key].members ==>
                 again[key].members[n] ==
                   if n in online.mods.value
                   then Obj((if profile[key].members[n].Obj? then profile[key].members[n].members else map[])
                            ["latestVersion" := Str(online.mods.value[n].value)])
                   else profile[key].members[n])
  {
  }
}
