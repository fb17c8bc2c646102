// What a session makes of the settings beside the contexts: the key timeout, the stored key,
// the time up to which the configuration is valid, and the file's own time.
module SessionSettings {
  import opened Recipes
  import opened Devices
  import opened Sessions
  import opened SessionRuns

  /** The key timeout after the actions: a change of passphrase to none makes it -1, a first
      passphrase 0, and a change of timeout sets it. */
  function TimeoutAfter(timeout: int, actions: seq<Action>): int
    decreases |actions|
  {
    if actions == [] then timeout
    else
      match actions[0]
      case LogIn(_) => TimeoutAfter(timeout, actions[1..])
      case ChangeTimeout(t) => TimeoutAfter(t, actions[1..])
      case ChangePassphrase(p) =>
        TimeoutAfter(if p == "" then -1 else if timeout == -1 then 0 else timeout, actions[1..])
  }

  lemma {:induction false} ActionsSet(s: Session, actions: seq<Action>)
    requires ActAll(s, actions).Some?
    ensures var t := ActAll(s, actions).value;
      && t.keyTimeout == TimeoutAfter(s.keyTimeout, actions) && t.passphrase == LastPassphrase(s.passphrase, actions)
      && t.systemPassphrase == s.systemPassphrase && t.cfgAsOf == s.cfgAsOf && t.settings == s.settings
    decreases |actions|
  {
    if actions != [] {
      ActionsSet(Act(s, actions[0]).value, actions[1..]);
    }
  }

  lemma StartSettings(f: File, now: int, system: string, answer: string, template: Option<string>)
    requires Load(Init(f, now, system, answer, template)).Some?
    ensures var s := Load(Init(f, now, system, answer, template)).value;
      && s.keyTimeout == f.settings.keyTimeout && s.systemPassphrase == system
      && s.settings == f.settings && s.cfgAsOf == f.settings.cfgAsOf
  {
  }

  lemma SaveSettings(s: Session, now: nat)
    requires Save(s, now).Some?
    ensures var (r, g) := Save(s, now).value;
      && g.settings.keyTimeout == s.keyTimeout && g.settings.cfgAsOf == s.cfgAsOf && r.passphrase == s.passphrase
      && (s.keyTimeout > 0 ==>
            g.settings.key == Some(Cipher(s.systemPassphrase, g.mtime, Clear(Passphrase(s.passphrase)))))
      && (s.keyTimeout <= 0 ==> g.settings.key == None)
      && g.mtime % 1_000_000_000 == 0 && now - 1_000_000_000 < g.mtime <= now
  {
  }

  /** One visit, whatever is done in it: the file written has the timeout of the file read as
      changed by the actions alone; it keeps the passphrase, under the visit's own system
      passphrase, exactly if that timeout is positive; the time up to which the configuration
      is valid stays; the file's time is the second of the save. */
  lemma VisitSettings(f: File, v: Visit)
    requires RunVisit(f, v).Some?
    ensures var (s, g) := RunVisit(f, v).value;
      && g.settings.keyTimeout == TimeoutAfter(f.settings.keyTimeout, v.actions)
      && (g.settings.keyTimeout > 0 ==>
            g.settings.key == Some(Cipher(v.system, g.mtime, Clear(Passphrase(s.passphrase)))))
      && (g.settings.keyTimeout <= 0 ==> g.settings.key == None)
      && g.settings.cfgAsOf == f.settings.cfgAsOf
      && g.mtime % 1_000_000_000 == 0 && v.saved - 1_000_000_000 < g.mtime <= v.saved
  {
    StartSettings(f, v.now, v.system, v.answer, v.template);
    var s := Load(Init(f, v.now, v.system, v.answer, v.template)).value;
    ActionsSet(s, v.actions);
    SaveSettings(ActAll(s, v.actions).value, v.saved);
  }

  /** The actions of all visits, one after another. */
  function TimeoutOver(timeout: int, visits: seq<Visit>): int {
    if visits == [] then timeout
    else TimeoutAfter(TimeoutOver(timeout, visits[..|visits| - 1]), visits[|visits| - 1].actions)
  }

  /** Over any chain of visits the timeout is the first file's as changed by all actions, and
      the time up to which the configuration is valid stays. */
  lemma {:induction false} ChainSettings(f: File, p: string, visits: seq<Visit>)
    requires RunVisits(f, p, visits).Some?
    ensures var (g, q) := RunVisits(f, p, visits).value;
      && g.settings.keyTimeout == TimeoutOver(f.settings.keyTimeout, visits)
      && g.settings.cfgAsOf == f.settings.cfgAsOf
      && (visits != [] && g.settings.keyTimeout > 0 ==>
            g.settings.key == Some(Cipher(visits[|visits| - 1].system, g.mtime, Clear(Passphrase(q)))))
      && (visits != [] && g.settings.keyTimeout <= 0 ==> g.settings.key == None)
  {
    if visits != [] {
      var rest, v := visits[..|visits| - 1], visits[|visits| - 1];
      ChainSettings(f, p, rest);
      var (g, q) := RunVisits(f, p, rest).value;
      VisitSettings(g, v.(answer := q));
    }
  }

  /** An upload is for a loaded target context alone, and its time is what the session keeps;
      a save that ends well has written it, and otherwise the time that was loaded. */
  lemma UploadSettings(s: Session, now: nat, o: Saving)
    ensures var r := SaveWith(s, now, o);
      && (s.loaded && !o.upload.NotCalled? ==> r.session.cfgAsOf == o.upload.asOf)
      && (!s.loaded || o.upload.NotCalled? ==> r.session.cfgAsOf == s.cfgAsOf)
      && (r.ok ==> r.file.Some? && r.file.value.settings.cfgAsOf == r.session.cfgAsOf)
      && (r.ok ==> r.file.value.settings.keyTimeout == s.keyTimeout)
      && (s.loaded && o.upload.UploadFailed? ==> !r.ok && r.file == None)
  {
  }

  /** After Load: what it returns, or with an error at least the user, the passphrase and the
      key as they were. */
  lemma AfterLoadExactly(s: Session)
    ensures Load(s).Some? ==> AfterLoad(s) == Load(s).value
    ensures var r := AfterLoad(s);
      r == s.(cfgAsOf := s.settings.cfgAsOf, auth := r.auth, device := r.device, target := r.target, loaded := r.loaded)
  {
  }

  /** The session with a new configuration: nothing is loaded, no passphrase is asked for. */
  lemma NewSettings(now: int, later: int, system: string, answer: string, template: Option<string>)
    ensures var s := Load(Init(NewFile(now), later, system, answer, template));
      && s.Some? && s.value.passphrase == "" && s.value.keyTimeout == -1 && s.value.cfgAsOf == 0
      && s.value.auth == "" && s.value.device == Device(None, map[]) && s.value.userID == ""
      && s.value.target == template && (s.value.loaded <==> template.Some?)
  {
  }
}
