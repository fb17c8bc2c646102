// The configuration file over its sessions, as functions on the session's state: what
// InitFileConfig, Load, Save and the setters compute.
module Sessions {
  import opened Recipes
  import opened Devices

  // ---- stored values ----

  /** What a context or a passphrase serializes to. */
  datatype Content = AuthText(s: string) | DeviceText(d: Device) | TargetText(s: string) | Passphrase(s: string)

  /** Stored bytes: serialized content, or bytes encrypted under a key made from a
      passphrase and a seed. */
  datatype Bytes = Clear(content: Content) | Cipher(passphrase: string, seed: int, inner: Bytes)

  datatype Key = Key(passphrase: string, seed: int)

  function Encrypt(k: Key, b: Bytes): Bytes { Cipher(k.passphrase, k.seed, b) }

  /** Decryption succeeds only with the key that encrypted. */
  function Decrypt(k: Key, b: Bytes): Option<Bytes> {
    if b.Cipher? && b.passphrase == k.passphrase && b.seed == k.seed then Some(b.inner) else None
  }

  /** No passphrase, no encryption. */
  function KeyOf(passphrase: string, seed: int): Option<Key> {
    if passphrase == "" then None else Some(Key(passphrase, seed))
  }

  function Seal(k: Option<Key>, b: Bytes): Bytes {
    if k.Some? then Encrypt(k.value, b) else b
  }

  datatype Settings = Settings(
    auth: Option<Bytes>,
    device: Option<Bytes>,
    target: Option<Bytes>,
    key: Option<Bytes>,
    keyTimeout: int,
    cfgAsOf: int
  )

  /** The file on disk and its modification time in nanoseconds. */
  datatype File = File(settings: Settings, mtime: int)

  /** The file that is created where there was none. */
  function NewFile(now: int): File { File(Settings(None, None, None, None, -1, 0), now) }

  // ---- a session ----

  datatype Session = Session(
    settings: Settings,
    systemPassphrase: string,
    keyTimeout: int,
    passphrase: string,
    readKey: Option<Key>,
    auth: string,
    device: Device,
    userID: string,
    target: Option<string>,
    loaded: bool,
    cfgAsOf: int
  )

  /** The passphrase a session starts with, and whether it had to be asked for. */
  function StartPassphrase(file: File, now: int, systemPassphrase: string, answer: string): (string, bool) {
    var s := file.settings;
    if s.key.Some? && now < file.mtime + s.keyTimeout then
      var b := Decrypt(Key(systemPassphrase, file.mtime), s.key.value);
      if b.Some? && b.value.Clear? && b.value.content.Passphrase? then (b.value.content.s, false) else (answer, true)
    else if s.keyTimeout != -1 then (answer, true)
    else ("", false)
  }

  /** InitFileConfig; `target` is None for a configuration without a cookbook. */
  function Init(file: File, now: int, systemPassphrase: string, answer: string, target: Option<string>): Session {
    var p := StartPassphrase(file, now, systemPassphrase, answer).0;
    Session(file.settings, systemPassphrase, file.settings.keyTimeout, p, KeyOf(p, file.mtime),
            "", NoDevice, "", target, false, 0)
  }

  /** getValue: None is an error, Some(None) a value that is not there. */
  function GetValue(s: Session, v: Option<Bytes>): Option<Option<Bytes>> {
    if v.None? then Some(None)
    else if s.readKey.Some? then
      match Decrypt(s.readKey.value, v.value) case None => None case Some(b) => Some(Some(b))
    else Some(v)
  }

  function LoadAuth(s: Session): Option<Session> {
    match GetValue(s, s.settings.auth)
    case None => None
    case Some(None) => Some(s)
    case Some(Some(b)) => if b.Clear? && b.content.AuthText? then Some(s.(auth := b.content.s)) else None
  }

  function LoadDevice(s: Session): Option<Session> {
    match GetValue(s, s.settings.device)
    case None => None
    case Some(None) => Some(s)
    case Some(Some(b)) => if b.Clear? && b.content.DeviceText? then Some(s.(device := b.content.d)) else None
  }

  function LoadTarget(s: Session): Option<Session> {
    match GetValue(s, s.settings.target)
    case None => None
    case Some(None) => Some(s.(loaded := true))
    case Some(Some(b)) =>
      if b.Clear? && b.content.TargetText? then Some(s.(target := Some(b.content.s), loaded := true)) else None
  }

  /** Load: the target context waits for the owner if the device has one. */
  function Load(s: Session): Option<Session> {
    match LoadAuth(s.(cfgAsOf := s.settings.cfgAsOf))
    case None => None
    case Some(a) =>
      match LoadDevice(a)
      case None => None
      case Some(d) => if d.target.Some? && d.device.owner.None? then LoadTarget(d) else Some(d)
  }

  /** The session after Load, whether it succeeded or stopped at the first value that it
      could not read. */
  function AfterLoad(s: Session): Session {
    var begun := s.(cfgAsOf := s.settings.cfgAsOf);
    match LoadAuth(begun)
    case None => begun
    case Some(a) =>
      match LoadDevice(a)
      case None => a
      case Some(d) =>
        if d.target.Some? && d.device.owner.None? && LoadTarget(d).Some? then LoadTarget(d).value else d
  }

  /** SetLoggedInUser: the owner's login loads the target context. */
  function Login(s: Session, userID: string): Option<Session> {
    if s.target.Some? && !s.loaded && s.device.owner.Some? && s.device.owner.value.id == userID then
      match LoadTarget(s)
      case None => None
      case Some(l) => Some(l.(userID := userID))
    else Some(s.(userID := userID))
  }

  function SetPassphrase(s: Session, p: string): Session {
    s.(passphrase := p, keyTimeout := if p == "" then -1 else if s.keyTimeout == -1 then 0 else s.keyTimeout)
  }

  /** Save times are cut to whole seconds. */
  const SECOND := 1_000_000_000

  function Seed(now: nat): int { now / SECOND * SECOND }

  /** The target context as it will be stored: what is loaded, or what was stored, read
      with the session's read key; None is an error. */
  function TargetToStore(s: Session): Option<Option<Bytes>> {
    if s.loaded then Some(Some(Clear(TargetText(if s.target.Some? then s.target.value else ""))))
    else GetValue(s, s.settings.target)
  }

  function StoredKey(s: Session, seed: int): Option<Bytes> {
    if s.keyTimeout > 0 then Some(Encrypt(Key(s.systemPassphrase, seed), Clear(Passphrase(s.passphrase)))) else None
  }

  /** Everything before the target context: auth and device are serialized and sealed. */
  function SaveFirst(s: Session, seed: int): Session {
    var k, d := KeyOf(s.passphrase, seed), Sanitized(s.device, s.userID);
    s.(device := d, settings := s.settings.(
      auth := Some(Seal(k, Clear(AuthText(s.auth)))),
      device := Some(Seal(k, Clear(DeviceText(d))))))
  }

  /** What the upload hook does if it is called: it is for a loaded target context that has
      changed, and returns the time up to which it is now valid, also with an error. */
  datatype Upload = NotCalled | Uploaded(asOf: int) | UploadFailed(asOf: int)

  /** Writing the file: a failure leaves it as it was, or leaves some other file. */
  datatype Writing = Written | WriteFailed(left: Option<File>)

  /** How a save turns out; `writtenAt` is the file's time if setting it to the seed fails. */
  datatype Saving = Saving(upload: Upload, write: Writing, setTime: bool, writtenAt: int)

  const Smooth := Saving(NotCalled, Written, true, 0)

  /** The session afterwards, the file if it is another one, and whether there was no error. */
  datatype Saved = Saved(session: Session, file: Option<File>, ok: bool)

  /** The settings once the target context has been sealed and stored. */
  function SaveTarget(s: Session, seed: int, t: Option<Bytes>): Session {
    s.(settings := s.settings.(target := if t.Some? then Some(Seal(KeyOf(s.passphrase, seed), t.value)) else None))
  }

  /** The last steps: the key, and the file with its time. */
  function SaveFile(s: Session, seed: int, o: Saving): Saved {
    var r := s.(settings := s.settings.(key := StoredKey(s, seed), keyTimeout := s.keyTimeout, cfgAsOf := s.cfgAsOf));
    match o.write
    case WriteFailed(left) => Saved(r, left, false)
    case Written => Saved(r, Some(File(r.settings, if o.setTime then seed else o.writtenAt)), o.setTime)
  }

  function SaveWith(s: Session, now: nat, o: Saving): (r: Saved)
    ensures r.ok ==> r.file.Some?
  {
    var seed := Seed(now);
    var f := SaveFirst(s, seed);
    match TargetToStore(f)
    case None => Saved(f, None, false)
    case Some(t) =>
      var g := SaveTarget(f, seed, t);
      if !s.loaded || o.upload.NotCalled? then SaveFile(g, seed, o)
      else if o.upload.UploadFailed? then Saved(g.(cfgAsOf := o.upload.asOf), None, false)
      else SaveFile(g.(cfgAsOf := o.upload.asOf), seed, o)
  }

  /** Save when nothing fails: the session afterwards and the file written; None if the
      stored target context can not be read. */
  function Save(s: Session, now: nat): Option<(Session, File)> {
    var r := SaveWith(s, now, Smooth);
    if r.ok then Some((r.session, r.file.value)) else None
  }
}
