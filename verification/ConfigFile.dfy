// The configuration file object: every method does, step by step, what Sessions computes.
module ConfigFiles {
  import opened Recipes
  import opened Devices
  import S = Sessions

  /** The file on disk, which outlives the sessions. */
  class Disk {
    var file: Option<S.File>

    constructor ()
      ensures file == None
    {
      file := None;
    }
  }

  class ConfigFile {
    const disk: Disk
    var settings: S.Settings
    var systemPassphrase: string
    var keyTimeout: int
    var passphrase: string
    var readCrypt: Option<S.Key>
    var authContext: string
    var device: Device
    var userID: string
    var targetContext: Option<string>
    var targetContextLoaded: bool
    var cfgAsOf: int

    function State(): S.Session
      reads this
    {
      S.Session(settings, systemPassphrase, keyTimeout, passphrase, readCrypt, authContext, device, userID,
                targetContext, targetContextLoaded, cfgAsOf)
    }

    /** Open the file, creating it if it is not there; `answer` is what the passphrase
        callback would return. */
    constructor (disk: Disk, now: int, systemPassphrase: string, answer: string, target: Option<string>)
      modifies disk
      ensures this.disk == disk
      ensures disk.file == Some(if old(disk.file).Some? then old(disk.file).value else S.NewFile(now))
      ensures State() == S.Init(disk.file.value, now, systemPassphrase, answer, target)
      ensures settings == disk.file.value.settings && keyTimeout == settings.keyTimeout
      ensures readCrypt == if passphrase == "" then None else Some(S.Key(passphrase, disk.file.value.mtime))
      ensures targetContext == target && !targetContextLoaded && userID == "" && authContext == ""
    {
      this.disk, this.systemPassphrase, targetContext := disk, systemPassphrase, target;
      authContext, device, userID, targetContextLoaded, cfgAsOf := "", NoDevice, "", false, 0;
      new;
      if disk.file.None? {
        disk.file := Some(S.NewFile(now));
      }
      var timestamp := disk.file.value.mtime;
      settings := disk.file.value.settings;
      keyTimeout := settings.keyTimeout;
      passphrase := "";
      if settings.key.Some? && now < timestamp + keyTimeout {
        var b := S.Decrypt(S.Key(systemPassphrase, timestamp), settings.key.value);
        if b.Some? && b.value.Clear? && b.value.content.Passphrase? {
          passphrase := b.value.content.s;
        } else {
          passphrase := answer;
        }
      } else if keyTimeout != -1 {
        passphrase := answer;
      }
      readCrypt := None;
      if |passphrase| > 0 {
        readCrypt := Some(S.Key(passphrase, timestamp));
      }
    }

    /** Read a stored value with the read key, or as it is without one. */
    method GetValue(v: Option<S.Bytes>) returns (ok: bool, value: Option<S.Bytes>)
      ensures S.GetValue(State(), v) == if ok then Some(value) else None
    {
      if v.None? {
        return true, None;
      }
      if readCrypt.Some? {
        value := S.Decrypt(readCrypt.value, v.value);
        return value.Some?, value;
      }
      return true, v;
    }

    method LoadTargetContext() returns (ok: bool)
      modifies this
      ensures match S.LoadTarget(old(State()))
        case None => !ok && State() == old(State())
        case Some(s) => ok && State() == s
    {
      var value;
      ok, value := GetValue(settings.target);
      if !ok {
        return;
      }
      if value.Some? {
        if !(value.value.Clear? && value.value.content.TargetText?) {
          return false;
        }
        targetContext := Some(value.value.content.s);
      }
      targetContextLoaded := true;
    }

    method LoadAuthContext() returns (ok: bool)
      modifies this
      ensures match S.LoadAuth(old(State()))
        case None => !ok && State() == old(State())
        case Some(s) => ok && State() == s
    {
      var value;
      ok, value := GetValue(settings.auth);
      if ok && value.Some? {
        if !(value.value.Clear? && value.value.content.AuthText?) {
          return false;
        }
        authContext := value.value.content.s;
      }
    }

    method LoadDeviceContext() returns (ok: bool)
      modifies this
      ensures match S.LoadDevice(old(State()))
        case None => !ok && State() == old(State())
        case Some(s) => ok && State() == s
    {
      var value;
      ok, value := GetValue(settings.device);
      if ok && value.Some? {
        if !(value.value.Clear? && value.value.content.DeviceText?) {
          return false;
        }
        device := value.value.content.d;
      }
    }

    /** Load the contexts; the target context only if the device has no owner. A context
        that can not be read ends the load with what has been loaded by then. */
    method Load() returns (ok: bool)
      modifies this
      ensures ok <==> S.Load(old(State())).Some?
      ensures State() == S.AfterLoad(old(State()))
      ensures ok ==> State() == S.Load(old(State())).value
    {
      cfgAsOf := settings.cfgAsOf;
      ok := LoadAuthContext();
      if ok {
        ok := LoadDeviceContext();
      }
      if ok && targetContext.Some? && device.owner.None? {
        ok := LoadTargetContext();
      }
    }

    method SetLoggedInUser(user: string) returns (ok: bool)
      modifies this
      ensures match S.Login(old(State()), user)
        case None => !ok && State() == old(State())
        case Some(s) => ok && State() == s
      ensures ok ==> userID == user
    {
      if targetContext.Some? && !targetContextLoaded {
        if device.owner.Some? && device.owner.value.id == user {
          ok := LoadTargetContext();
          if !ok {
            return;
          }
        }
      }
      userID := user;
      ok := true;
    }

    method SetPassphrase(p: string)
      modifies this
      ensures State() == S.SetPassphrase(old(State()), p)
      ensures passphrase == p
      ensures keyTimeout == if p == "" then -1 else if old(keyTimeout) == -1 then 0 else old(keyTimeout)
    {
      passphrase := p;
      if |p| == 0 {
        keyTimeout := -1;
      } else if keyTimeout == -1 {
        keyTimeout := 0;
      }
    }

    method SetKeyTimeout(timeout: int)
      modifies this`keyTimeout
      ensures State() == old(State()).(keyTimeout := timeout)
    {
      keyTimeout := timeout;
    }

    /** Serialize and seal the auth and device contexts. The device context drops the
        owner's private key on the way unless the owner is logged in. */
    method SaveAuthAndDevice(writeCrypt: Option<S.Key>, timestamp: int)
      requires writeCrypt == S.KeyOf(passphrase, timestamp)
      modifies this
      ensures State() == S.SaveFirst(old(State()), timestamp)
    {
      settings := settings.(auth := Some(S.Seal(writeCrypt, S.Clear(S.AuthText(authContext)))));
      if device.owner.Some? && userID != device.owner.value.id {
        device := device.(owner := Some(device.owner.value.(privateKey := "")));
      }
      settings := settings.(device := Some(S.Seal(writeCrypt, S.Clear(S.DeviceText(device)))));
    }

    /** The target context to store: the loaded one, or the stored one read back. */
    method TargetToSave() returns (ok: bool, value: Option<S.Bytes>)
      ensures S.TargetToStore(State()) == if ok then Some(value) else None
    {
      if targetContextLoaded {
        return true, Some(S.Clear(S.TargetText(if targetContext.Some? then targetContext.value else "")));
      }
      ok, value := GetValue(settings.target);
    }

    /** Seal and store the target context, and hand it to the upload hook. */
    method SaveTargetContext(writeCrypt: Option<S.Key>, timestamp: int, o: S.Saving) returns (ok: bool)
      requires writeCrypt == S.KeyOf(passphrase, timestamp)
      modifies this
      ensures match S.TargetToStore(old(State()))
        case None => !ok && State() == old(State())
        case Some(t) =>
          var g := S.SaveTarget(old(State()), timestamp, t);
          && (ok <==> !old(targetContextLoaded) || !o.upload.UploadFailed?)
          && State() == if !old(targetContextLoaded) || o.upload.NotCalled? then g else g.(cfgAsOf := o.upload.asOf)
    {
      var value: Option<S.Bytes>;
      ok, value := TargetToSave();
      if !ok {
        return;
      }
      if value.Some? {
        settings := settings.(target := Some(S.Seal(writeCrypt, value.value)));
      }
      if targetContextLoaded {
        match o.upload
        case NotCalled =>
        case Uploaded(asOf) => cfgAsOf := asOf;
        case UploadFailed(asOf) => cfgAsOf, ok := asOf, false;
      }
    }

    /** Store the key and write the file with its time. */
    method WriteFile(timestamp: int, o: S.Saving) returns (ok: bool)
      modifies this, disk
      ensures var r := S.SaveFile(old(State()), timestamp, o);
        ok == r.ok && State() == r.session && disk.file == if r.file.Some? then r.file else old(disk.file)
    {
      var key := None;
      if keyTimeout > 0 {
        key := Some(S.Encrypt(S.Key(systemPassphrase, timestamp), S.Clear(S.Passphrase(passphrase))));
      }
      settings := settings.(key := key, keyTimeout := keyTimeout, cfgAsOf := cfgAsOf);
      match o.write
      case WriteFailed(left) =>
        if left.Some? {
          disk.file := left;
        }
        ok := false;
      case Written =>
        disk.file := Some(S.File(settings, if o.setTime then timestamp else o.writtenAt));
        ok := o.setTime;
    }

    /** Seal and store the contexts and the key, and write the file. */
    method Save(now: nat, o: S.Saving) returns (ok: bool)
      modifies this, disk
      ensures var r := S.SaveWith(old(State()), now, o);
        ok == r.ok && State() == r.session && disk.file == if r.file.Some? then r.file else old(disk.file)
    {
      var timestamp := now / S.SECOND * S.SECOND;
      var writeCrypt := None;
      if |passphrase| > 0 {
        writeCrypt := Some(S.Key(passphrase, timestamp));
      }
      SaveAuthAndDevice(writeCrypt, timestamp);
      ok := SaveTargetContext(writeCrypt, timestamp, o);
      if ok {
        ok := WriteFile(timestamp, o);
      }
    }
  }
}
