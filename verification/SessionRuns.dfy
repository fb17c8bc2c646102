// What survives saves, restarts, logins and passphrase changes.
module SessionRuns {
  import opened Recipes
  import opened Devices
  import opened Sessions

  // ---- what a file holds ----

  /** The file's contexts, each sealed under the passphrase and the file's own time. */
  ghost predicate Holds(f: File, p: string, auth: string, d: Device, target: Option<string>) {
    var k := KeyOf(p, f.mtime);
    && f.settings.auth == Some(Seal(k, Clear(AuthText(auth))))
    && f.settings.device == Some(Seal(k, Clear(DeviceText(d))))
    && f.settings.target == if target.Some? then Some(Seal(k, Clear(TargetText(target.value)))) else None
  }

  /** The passphrase is kept in the file, under the system passphrase, if it has a timeout. */
  ghost predicate Keyed(f: File, systemPassphrase: string, p: string) {
    f.settings.key == if f.settings.keyTimeout > 0
      then Some(Encrypt(Key(systemPassphrase, f.mtime), Clear(Passphrase(p)))) else None
  }

  /** The timeout is -1 exactly when there is no passphrase. */
  predicate TimeoutMatches(p: string, keyTimeout: int) { keyTimeout == -1 <==> p == "" }

  // ---- starting ----

  /** A key is stored, and it is strictly before its timeout. */
  predicate Unexpired(keyTimeout: int, writtenAt: int, now: int) { keyTimeout > 0 && now < writtenAt + keyTimeout }

  /** The stored key answers strictly before the timeout and only for the system passphrase
      it was stored under; the callback is asked from then on, and never without a passphrase. */
  lemma StartsWith(f: File, systemPassphrase: string, p: string, now: int, nowSystem: string, answer: string)
    requires Keyed(f, systemPassphrase, p) && TimeoutMatches(p, f.settings.keyTimeout)
    ensures var (q, asked) := StartPassphrase(f, now, nowSystem, answer);
      && (asked <==> p != "" && !(Unexpired(f.settings.keyTimeout, f.mtime, now) && nowSystem == systemPassphrase))
      && q == if asked then answer else p
  {
  }

  /** Loading succeeds exactly with the passphrase the file was saved under, and then
      gives back what it holds. */
  lemma LoadsExactly(f: File, p: string, auth: string, d: Device, target: Option<string>,
                     now: int, system: string, answer: string, template: Option<string>)
    requires Holds(f, p, auth, d, target)
    ensures var s := Init(f, now, system, answer, template);
      && (Load(s).Some? <==> s.passphrase == p)
      && (s.passphrase == p ==>
           var l := Load(s).value;
           && l == s.(auth := auth, device := d, cfgAsOf := f.settings.cfgAsOf, loaded := l.loaded, target := l.target)
           && (l.loaded <==> template.Some? && d.owner.None?)
           && l.target == if l.loaded && target.Some? then target else template)
  {
  }

  /** The owner's first login loads exactly the stored target context, any other login
      leaves it sealed. */
  lemma OwnerLoads(f: File, p: string, auth: string, d: Device, target: Option<string>,
                   now: int, system: string, answer: string, template: Option<string>, user: string)
    requires Holds(f, p, auth, d, target) && template.Some? && d.owner.Some?
    requires Init(f, now, system, answer, template).passphrase == p
    ensures var l := Load(Init(f, now, system, answer, template)).value;
      && Login(l, user).Some?
      && (user == d.owner.value.id ==>
          Login(l, user).value.loaded && Login(l, user).value.target == if target.Some? then target else template)
      && (user != d.owner.value.id ==> Login(l, user).value == l.(userID := user))
  {
    LoadsExactly(f, p, auth, d, target, now, system, answer, template);
  }

  // ---- saving what is loaded ----

  lemma SanitizedTwice(d: Device, user: string)
    ensures Sanitized(Sanitized(d, user), user) == Sanitized(d, user)
  {
  }

  /** Saving a loaded session always succeeds and writes all it holds. */
  lemma SaveLoaded(s: Session, now: nat)
    requires s.loaded && s.target.Some?
    ensures Save(s, now).Some?
    ensures var (r, f) := Save(s, now).value;
      && r == s.(device := Sanitized(s.device, s.userID), settings := r.settings)
      && Holds(f, s.passphrase, s.auth, Sanitized(s.device, s.userID), s.target)
      && Keyed(f, s.systemPassphrase, s.passphrase)
      && f.settings.keyTimeout == s.keyTimeout && f.mtime == Seed(now)
  {
  }

  /** Save again and again; the file is the one last written. */
  function SaveAll(s: Session, times: seq<nat>): Option<(Session, File)>
    requires times != []
  {
    var last := |times| - 1;
    if last == 0 then Save(s, times[0])
    else
      match SaveAll(s, times[..last])
      case None => None
      case Some(p) => Save(p.0, times[last])
  }

  lemma {:induction false} SaveAllLoaded(s: Session, times: seq<nat>)
    requires s.loaded && s.target.Some? && times != []
    ensures SaveAll(s, times).Some?
    ensures var (r, f) := SaveAll(s, times).value;
      && r == s.(device := Sanitized(s.device, s.userID), settings := r.settings)
      && Holds(f, s.passphrase, s.auth, Sanitized(s.device, s.userID), s.target)
      && Keyed(f, s.systemPassphrase, s.passphrase)
      && f.settings.keyTimeout == s.keyTimeout
    decreases |times|
  {
    var last := |times| - 1;
    if last == 0 {
      SaveLoaded(s, times[0]);
    } else {
      SaveAllLoaded(s, times[..last]);
      SaveLoaded(SaveAll(s, times[..last]).value.0, times[last]);
      SanitizedTwice(s.device, s.userID);
    }
  }

  /** Any number of saves of a loaded session, then a start at any time: the contexts come
      back exactly when the passphrase is the saved one, which the stored key supplies
      strictly before the timeout and the callback from then on. */
  lemma RestoredAfterSaves(s: Session, times: seq<nat>, now: int, system: string, answer: string, template: string)
    requires s.loaded && s.target.Some? && times != [] && TimeoutMatches(s.passphrase, s.keyTimeout)
    ensures SaveAll(s, times).Some?
    ensures var f := SaveAll(s, times).value.1;
      var t := Init(f, now, system, answer, Some(template));
      var asked := StartPassphrase(f, now, system, answer).1;
      && (asked <==>
           s.passphrase != "" && !(Unexpired(s.keyTimeout, f.mtime, now) && system == s.systemPassphrase))
      && (Load(t).Some? <==> !asked || answer == s.passphrase)
      && (Load(t).Some? ==>
           var l := Load(t).value;
           && l.auth == s.auth && l.device == Sanitized(s.device, s.userID)
           && (s.device.owner.None? ==> l.loaded && l.target == s.target)
           && (s.device.owner.Some? ==>
                Login(l, s.device.owner.value.id).Some? && Login(l, s.device.owner.value.id).value.target == s.target))
  {
    SaveAllLoaded(s, times);
    var f, d := SaveAll(s, times).value.1, Sanitized(s.device, s.userID);
    StartsWith(f, s.systemPassphrase, s.passphrase, now, system, answer);
    LoadsExactly(f, s.passphrase, s.auth, d, s.target, now, system, answer, Some(template));
    if d.owner.Some? && Init(f, now, system, answer, Some(template)).passphrase == s.passphrase {
      OwnerLoads(f, s.passphrase, s.auth, d, s.target, now, system, answer, Some(template), d.owner.value.id);
    }
  }

  /** Without that match of timeout and passphrase: a saved session opens with the right
      answer exactly unless it has a passphrase whose timeout is -1. */
  lemma OpensExactly(s: Session, saved: nat, now: int, system: string, template: string)
    requires s.loaded && s.target.Some?
    ensures Save(s, saved).Some?
    ensures Load(Init(Save(s, saved).value.1, now, system, s.passphrase, Some(template))).Some?
      <==> !(s.passphrase != "" && s.keyTimeout == -1)
  {
    SaveLoaded(s, saved);
    LoadsExactly(Save(s, saved).value.1, s.passphrase, s.auth, Sanitized(s.device, s.userID), s.target, now, system,
                 s.passphrase, Some(template));
    if s.systemPassphrase != system || s.keyTimeout <= 0 || now >= Seed(saved) + s.keyTimeout {
      assert StartPassphrase(Save(s, saved).value.1, now, system, s.passphrase).0 == if s.keyTimeout == -1 then ""
        else s.passphrase;
    }
  }

  /** When the file's time can not be set to the seed, a later start with the right answer
      works exactly if there is no passphrase or the file was written in that very moment. */
  lemma UnsetTimeExactly(s: Session, saved: nat, o: Saving, now: int, system: string, template: string)
    requires s.loaded && s.target.Some? && TimeoutMatches(s.passphrase, s.keyTimeout)
    requires o.write.Written? && !o.setTime && !o.upload.UploadFailed?
    ensures var r := SaveWith(s, saved, o);
      && !r.ok && r.file.Some?
      && (Load(Init(r.file.value, now, system, s.passphrase, Some(template))).Some?
          <==> s.passphrase == "" || o.writtenAt == Seed(saved))
  {
    var f := SaveWith(s, saved, o).file.value;
    assert f.mtime == o.writtenAt;
    assert f.settings.auth == Some(Seal(KeyOf(s.passphrase, Seed(saved)), Clear(AuthText(s.auth))));
  }

  // ---- chains of sessions that carry the target context through ----

  datatype Action = LogIn(user: string) | ChangePassphrase(p: string) | ChangeTimeout(timeout: int)

  function Act(s: Session, a: Action): Option<Session> {
    match a
    case LogIn(user) => Login(s, user)
    case ChangePassphrase(p) => Some(SetPassphrase(s, p))
    case ChangeTimeout(t) => Some(s.(keyTimeout := t))
  }

  function ActAll(s: Session, actions: seq<Action>): Option<Session>
    decreases |actions|
  {
    if actions == [] then Some(s)
    else
      match Act(s, actions[0])
      case None => None
      case Some(t) => ActAll(t, actions[1..])
  }

  /** One start, load, any actions, one save. `answer` is what the callback returns. */
  datatype Visit = Visit(now: int, system: string, answer: string, template: Option<string>, actions: seq<Action>,
                         saved: nat)

  /** The session at the end of a visit, and the file it writes. */
  function RunVisit(f: File, v: Visit): Option<(Session, File)> {
    match Load(Init(f, v.now, v.system, v.answer, v.template))
    case None => None
    case Some(s) =>
      match ActAll(s, v.actions)
      case None => None
      case Some(t) => Save(t, v.saved)
  }

  ghost predicate NoOwnerLogin(d: Device, actions: seq<Action>) {
    forall a | a in actions && a.LogIn? && d.owner.Some? :: a.user != d.owner.value.id
  }

  /** The passphrase after the actions. */
  function LastPassphrase(p: string, actions: seq<Action>): string
    decreases |actions|
  {
    if actions == [] then p
    else LastPassphrase(if actions[0].ChangePassphrase? then actions[0].p else p, actions[1..])
  }

  /** Each timeout is -1 exactly if there is no passphrase at that point. */
  predicate TimeoutsFit(p: string, actions: seq<Action>)
    decreases |actions|
  {
    actions == [] ||
    (&& (actions[0].ChangeTimeout? ==> TimeoutMatches(p, actions[0].timeout))
     && TimeoutsFit(if actions[0].ChangePassphrase? then actions[0].p else p, actions[1..]))
  }

  /** Actions change the passphrase, its timeout and the user, and keep everything else. */
  lemma {:induction false} ActionsKeep(s: Session, actions: seq<Action>)
    requires s.loaded || NoOwnerLogin(s.device, actions)
    requires TimeoutMatches(s.passphrase, s.keyTimeout) && TimeoutsFit(s.passphrase, actions)
    ensures ActAll(s, actions).Some?
    ensures var t := ActAll(s, actions).value;
      && t.passphrase == LastPassphrase(s.passphrase, actions)
      && t == s.(passphrase := t.passphrase, keyTimeout := t.keyTimeout, userID := t.userID)
      && TimeoutMatches(t.passphrase, t.keyTimeout)
    decreases |actions|
  {
    if actions != [] {
      var t := Act(s, actions[0]);
      assert actions[0] in actions && forall a | a in actions[1..] :: a in actions;
      ActionsKeep(t.value, actions[1..]);
    }
  }

  /** Saving without having loaded: the stored target context is read with the key the
      session started with and sealed again under the new one. */
  lemma SaveCarries(f: File, s: Session, p: string, auth: string, d: Device, target: Option<string>, saved: nat)
    requires Holds(f, p, auth, d, target) && s.settings == f.settings && s.readKey == KeyOf(p, f.mtime)
    requires s.auth == auth && s.device == d
    requires s.loaded ==> s.target.Some? && target.Some? && s.target == target
    ensures Save(s, saved).Some?
    ensures var g := Save(s, saved).value.1;
      && Holds(g, s.passphrase, auth, Sanitized(d, s.userID), target)
      && Keyed(g, s.systemPassphrase, s.passphrase)
      && g.settings.keyTimeout == s.keyTimeout && g.mtime == Seed(saved)
  {
  }

  /** The file is well kept: it holds the contexts under p, with its key stored if need be. */
  ghost predicate Kept(f: File, p: string, auth: string, d: Device, target: Option<string>) {
    && Holds(f, p, auth, d, target) && TimeoutMatches(p, f.settings.keyTimeout)
    && exists system :: Keyed(f, system, p)
  }

  /** One visit without an owner login keeps the target context's plaintext and re-seals it
      under the visit's own time. */
  lemma VisitKeeps(f: File, v: Visit, p: string, auth: string, d: Device, target: Option<string>)
    requires Kept(f, p, auth, d, target) && v.answer == p && NoOwnerLogin(d, v.actions) && TimeoutsFit(p, v.actions)
    requires d.owner.None? && v.template.Some? ==> target.Some?
    ensures RunVisit(f, v).Some?
    ensures var (t, g) := RunVisit(f, v).value;
      && Kept(g, t.passphrase, auth, Sanitized(d, t.userID), target) && g.mtime == Seed(v.saved)
      && t.passphrase == LastPassphrase(p, v.actions)
  {
    var system :| Keyed(f, system, p);
    StartsWith(f, system, p, v.now, v.system, v.answer);
    var s := Init(f, v.now, v.system, v.answer, v.template);
    LoadsExactly(f, p, auth, d, target, v.now, v.system, v.answer, v.template);
    var l := Load(s).value;
    ActionsKeep(l, v.actions);
    var t := ActAll(l, v.actions).value;
    SaveCarries(f, t, p, auth, d, target, v.saved);
  }

  /** Each visit's callback returns the passphrase its file was saved under. */
  function RunVisits(f: File, p: string, visits: seq<Visit>): Option<(File, string)> {
    if visits == [] then Some((f, p))
    else
      match RunVisits(f, p, visits[..|visits| - 1])
      case None => None
      case Some(q) =>
        match RunVisit(q.0, visits[|visits| - 1].(answer := q.1))
        case None => None
        case Some(r) => Some((r.1, r.0.passphrase))
  }

  /** The passphrase after the visits, and that each timeout set in them fits it. */
  function PassphraseAfter(p: string, visits: seq<Visit>): string {
    if visits == [] then p
    else LastPassphrase(PassphraseAfter(p, visits[..|visits| - 1]), visits[|visits| - 1].actions)
  }

  predicate VisitsFit(p: string, visits: seq<Visit>) {
    visits == [] ||
    (&& VisitsFit(p, visits[..|visits| - 1])
     && TimeoutsFit(PassphraseAfter(p, visits[..|visits| - 1]), visits[|visits| - 1].actions))
  }

  /** The device's users and owner are the same, but for the owner's private key. */
  ghost predicate SameUsers(a: Device, b: Device) {
    && a.users == b.users && (a.owner.Some? <==> b.owner.Some?)
    && (a.owner.Some? ==> b.owner.value == a.owner.value.(privateKey := b.owner.value.privateKey))
  }

  /** Over any chain of visits without an owner login the stored target context never
      changes, whatever the changes of passphrase and timeout in between. */
  lemma {:induction false} ChainKeeps(f: File, p: string, auth: string, d: Device, target: Option<string>,
                                      visits: seq<Visit>)
    requires Kept(f, p, auth, d, target) && target.Some? && VisitsFit(p, visits)
    requires forall v | v in visits :: NoOwnerLogin(d, v.actions)
    ensures RunVisits(f, p, visits).Some?
    ensures var (g, q) := RunVisits(f, p, visits).value;
      q == PassphraseAfter(p, visits) && exists e :: SameUsers(d, e) && Kept(g, q, auth, e, target)
    decreases |visits|
  {
    if visits == [] {
      assert SameUsers(d, d);
    } else {
      var rest, v := visits[..|visits| - 1], visits[|visits| - 1];
      assert v in visits && forall u | u in rest :: u in visits;
      ChainKeeps(f, p, auth, d, target, rest);
      var (g, q) := RunVisits(f, p, rest).value;
      var e :| SameUsers(d, e) && Kept(g, q, auth, e, target);
      VisitKeeps(g, v.(answer := q), q, auth, e, target);
      var t := RunVisit(g, v.(answer := q)).value.0;
      assert SameUsers(d, Sanitized(e, t.userID));
    }
  }

  /** ... and the first owner login after the chain loads exactly what was last written. */
  lemma OwnerLoadsAfterChain(f: File, p: string, auth: string, d: Device, target: string, visits: seq<Visit>,
                             now: int, system: string, template: string)
    requires Kept(f, p, auth, d, Some(target)) && d.owner.Some? && VisitsFit(p, visits)
    requires forall v | v in visits :: NoOwnerLogin(d, v.actions)
    ensures RunVisits(f, p, visits).Some?
    ensures var (g, q) := RunVisits(f, p, visits).value;
      var l := Load(Init(g, now, system, q, Some(template)));
      && l.Some? && !l.value.loaded
      && Login(l.value, d.owner.value.id).Some? && Login(l.value, d.owner.value.id).value.target == Some(target)
  {
    ChainKeeps(f, p, auth, d, Some(target), visits);
    var (g, q) := RunVisits(f, p, visits).value;
    var e :| SameUsers(d, e) && Kept(g, q, auth, e, Some(target));
    var keyed :| Keyed(g, keyed, q);
    StartsWith(g, keyed, q, now, system, q);
    LoadsExactly(g, q, auth, e, Some(target), now, system, q, Some(template));
    OwnerLoads(g, q, auth, e, Some(target), now, system, q, Some(template), d.owner.value.id);
  }

  // ---- a second save in one session ----

  /** How a second save without a load ends. */
  datatype SecondSave = Keeps | Refused | SealsTwice

  /** The second save still reads with the key that the session started with: it is refused
      if that key does not open what the first save wrote; without a key it takes whatever
      is stored for plaintext. */
  function SecondSaveOutcome(f: File, p: string, q: string, first: nat): SecondSave {
    if p == "" then (if q == "" then Keeps else SealsTwice)
    else if q == p && Seed(first) == f.mtime then Keeps
    else Refused
  }

  /** A session that started with passphrase p and has not loaded its target context saves
      under q, then under p2. A second save that is refused writes no file, so the first
      one still holds the target context; one that seals twice stores the first save's
      bytes as if they were the target context. */
  lemma SecondSaveExactly(f: File, s: Session, p: string, auth: string, d: Device, target: string, first: nat,
                          p2: string, second: nat)
    requires Holds(f, p, auth, d, Some(target)) && s.settings == f.settings && s.readKey == KeyOf(p, f.mtime)
    requires s.auth == auth && s.device == d && !s.loaded
    ensures Save(s, first).Some?
    ensures var (r1, g1) := Save(s, first).value;
      var two := Save(SetPassphrase(r1, p2), second);
      && Holds(g1, s.passphrase, auth, Sanitized(d, s.userID), Some(target))
      && match SecondSaveOutcome(f, p, s.passphrase, first)
         case Refused => two == None
         case Keeps => two.Some? && Holds(two.value.1, p2, auth, Sanitized(d, s.userID), Some(target))
         case SealsTwice =>
           && two.Some? && !Holds(two.value.1, p2, auth, Sanitized(d, s.userID), Some(target))
           && two.value.1.settings.target
                == Some(Seal(KeyOf(p2, Seed(second)), Cipher(s.passphrase, Seed(first), Clear(TargetText(target)))))
  {
    SaveCarries(f, s, p, auth, d, Some(target), first);
    SanitizedTwice(d, s.userID);
  }

  /** A file that holds sealed bytes in the place of the target context. */
  ghost predicate HoldsSealed(f: File, p: string, auth: string, d: Device, inner: Bytes) {
    var k := KeyOf(p, f.mtime);
    && f.settings.auth == Some(Seal(k, Clear(AuthText(auth))))
    && f.settings.device == Some(Seal(k, Clear(DeviceText(d))))
    && f.settings.target == Some(Seal(k, inner)) && inner.Cipher?
  }

  /** No start can read such a target context, at any time and with any answer: loading
      fails, or the owner's login does. */
  lemma SealedTwiceLost(f: File, p: string, auth: string, d: Device, inner: Bytes,
                        now: int, system: string, answer: string, template: string)
    requires HoldsSealed(f, p, auth, d, inner)
    ensures var l := Load(Init(f, now, system, answer, Some(template)));
      l.None? || (d.owner.Some? && !l.value.loaded && Login(l.value, d.owner.value.id).None?)
  {
    var s := Init(f, now, system, answer, Some(template));
    if s.passphrase == p {
      assert LoadAuth(s.(cfgAsOf := s.settings.cfgAsOf)).Some?;
    }
  }

  /** Setting a first passphrase and saving twice without a load encrypts the target context
      twice, and no later start can read it. */
  lemma SetPassphraseAndSaveTwice(f: File, s: Session, auth: string, d: Device, target: string, p: string, first: nat,
                                  second: nat, now: int, system: string, answer: string, template: string)
    requires Holds(f, "", auth, d, Some(target)) && s.settings == f.settings && s.readKey == None
    requires s.auth == auth && s.device == d && !s.loaded && p != ""
    ensures var one := Save(SetPassphrase(s, p), first);
      && one.Some?
      && var two := Save(one.value.0, second);
      && two.Some?
      && two.value.1.settings.target
           == Some(Cipher(p, Seed(second), Cipher(p, Seed(first), Clear(TargetText(target)))))
      && var l := Load(Init(two.value.1, now, system, answer, Some(template)));
         l.None? || (d.owner.Some? && !l.value.loaded && Login(l.value, d.owner.value.id).None?)
  {
    var one := Save(SetPassphrase(s, p), first);
    SaveCarries(f, SetPassphrase(s, p), "", auth, d, Some(target), first);
    var two := Save(one.value.0, second);
    SanitizedTwice(d, s.userID);
    SealedTwiceLost(two.value.1, p, auth, Sanitized(d, s.userID), Cipher(p, Seed(first), Clear(TargetText(target))),
                    now, system, answer, template);
  }

  // ---- a passphrase without a timeout ----

  /** A new configuration whose user sets a passphrase and then the timeout -1 can not be
      opened again, even with the right passphrase. */
  lemma PassphraseWithoutTimeoutLost(now: int, saved: nat, later: int, system: string)
    ensures var s := Load(Init(NewFile(now), now, system, "", Some("templates")));
      && s.Some? && s.value.loaded
      && var done := Save(SetPassphrase(s.value, "secret").(keyTimeout := -1), saved);
      done.Some? && Load(Init(done.value.1, later, system, "secret", Some("templates"))) == None
  {
    var s := Load(Init(NewFile(now), now, system, "", Some("templates"))).value;
    OpensExactly(SetPassphrase(s, "secret").(keyTimeout := -1), saved, later, system, "templates");
  }
}
