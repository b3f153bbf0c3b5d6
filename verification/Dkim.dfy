/** DKIM key files (internal/dkim/dkim.go), their creation
    (domain_email_enable.go) and rotation (domain_email_dkim_rotate.go).
    Ed25519 is a function from seeds to public keys. */
module Dkim {
  import opened Text
  import opened Base64

  const SEED_SIZE := 32

  type Seed = b: seq<Byte> | |b| == SEED_SIZE witness seq(SEED_SIZE, i => 0)

  type Ed25519 = Seed -> seq<Byte>

  datatype LoadError = NotFound | Unreadable | InvalidSeed

  /** The TXT record value of a seed. */
  function Txt(pub: Ed25519, seed: Seed): string {
    "v=DKIM1; k=ed25519; p=" + Encode(pub(seed))
  }

  /** `LoadEd25519` on the bytes of a key file. */
  function ParseKey(data: string): Result<Seed, LoadError> {
    var body := if |data| > 0 && data[|data| - 1] == '\n' then data[..|data| - 1] else data;
    match Decode(body)
    case None => Err(InvalidSeed)
    case Some(b) => if |b| == SEED_SIZE then Ok(b) else Err(InvalidSeed)
  }

  /** What WritePrivate stores for a nonempty private form. */
  function Stored(priv: string): string
    requires priv != ""
  {
    if priv[|priv| - 1] == '\n' then priv else priv + "\n"
  }

  function KeyFile(seed: Seed): string {
    Stored(Encode(seed))
  }

  /** Loading the file written for a seed gives the seed back. */
  lemma KeyFileRoundTrip(seed: Seed)
    ensures ParseKey(KeyFile(seed)) == Ok(seed) && KeyFile(seed) == Encode(seed) + "\n"
  {
    RoundTrip(seed);
    NoNewlines(seed);
    var s := Encode(seed);
    assert s[|s| - 1] in s;
    assert (s + "\n")[..|s + "\n"| - 1] == s;
  }

  lemma {:induction false} LastNewline(s: string)
    ensures SkipNewlines(s + "\n") == SkipNewlines(s)
  {
    if s == "" {
      assert (s + "\n")[1..] == "";
    } else {
      assert (s + "\n")[0] == s[0] && (s + "\n")[1..] == s[1..] + "\n";
      LastNewline(s[1..]);
    }
  }

  /** A key file loads when it is the base64 of 32 bytes, line breaks or not. */
  lemma LoadsExactly(data: string)
    ensures ParseKey(data) ==
      match Decode(data)
      case None => Err(InvalidSeed)
      case Some(b) => if |b| == 32 then Ok(b) else Err(InvalidSeed)
  {
    if |data| > 0 && data[|data| - 1] == '\n' {
      LastNewline(data[..|data| - 1]);
      assert data[..|data| - 1] + "\n" == data;
    }
    hide SkipNewlines, DecodeGroups;
  }

  /** A text record that announces `key`: the fixed tags, then the key in base64. */
  predicate Announces(txt: string, key: seq<Byte>) {
    var tags := "v=DKIM1; k=ed25519; p=";
    tags <= txt && Decode(txt[|tags|..]) == Some(key)
  }

  lemma TxtAnnounces(pub: Ed25519, seed: Seed)
    ensures Announces(Txt(pub, seed), pub(seed))
  {
    RoundTrip(pub(seed));
    var tags := "v=DKIM1; k=ed25519; p=";
    hide Encode, Decode;
    assert (tags + Encode(pub(seed)))[|tags|..] == Encode(pub(seed));
  }

  /** Whether the key file can be seen and read, whether copying and writing it go
      through, and how the reload ends. */
  datatype Env = Env(visible: bool, readable: bool, copies: bool, writes: bool, reloads: bool, notSupported: bool)

  /** The files of one domain: `<domain>.key`, its `.old` copy and a temp file. */
  datatype Disk = Disk(key: Option<string>, backup: Option<string>, temp: Option<string>)

  datatype RotateResult =
    | Rotated(oldTxt: string, newTxt: string)
    | NoKey
    | ReloadFailed
    | RotateFailed

  /** Every disk seen while old content `was` is being replaced by `becomes`:
      the key file is complete throughout, and once it changed, `.old` holds
      what it was. */
  predicate SafePoint(d: Disk, was: string, becomes: string) {
    && (d.key == Some(was) || d.key == Some(becomes))
    && (d.key != Some(was) ==> d.backup == Some(was))
  }

  class KeyDir {
    var disk: Disk
    /** Every disk the agent could die on, oldest first. */
    ghost var trail: seq<Disk>

    constructor (d: Disk)
      ensures disk == d && trail == [d]
    {
      disk := d;
      trail := [d];
    }

    ghost predicate Valid()
      reads this
    {
      trail != [] && trail[|trail| - 1] == disk
    }

    method Put(d: Disk)
      requires Valid()
      modifies this
      ensures Valid() && disk == d && trail == old(trail) + [d]
    {
      disk := d;
      trail := trail + [d];
    }

    method LoadEd25519(readable: bool) returns (r: Result<Seed, LoadError>)
      ensures disk.key == None ==> r == Err(NotFound)
      ensures disk.key.Some? ==> r == if readable then ParseKey(disk.key.value) else Err(Unreadable)
    {
      if disk.key == None {
        return Err(NotFound);
      }
      if !readable {
        return Err(Unreadable);
      }
      return ParseKey(disk.key.value);
    }

    /** `WritePrivate`: temp file, chmod, write, newline, sync, rename; unless it
        `works` some step fails, and then the temp file is removed. */
    method WritePrivate(priv: string, works: bool) returns (ok: bool)
      requires Valid()
      modifies this
      ensures Valid() && old(trail) <= trail && disk.backup == old(disk.backup)
      ensures ok <==> works && priv != ""
      ensures ok ==> priv != "" && disk.key == Some(Stored(priv))
      ensures !ok ==> disk.key == old(disk.key)
      ensures forall i :: |old(trail)| <= i < |trail| ==>
        && trail[i].backup == old(disk.backup)
        && (trail[i].key == old(disk.key) || (priv != "" && trail[i].key == Some(Stored(priv))))
    {
      if priv == "" {
        return false;
      }
      var creates: bool, chmods: bool, writes: bool, ends: bool := *, *, *, *;
      if !creates && !works {
        return false;
      }
      Put(disk.(temp := Some("")));
      if chmods || works {
        var written := |priv|;
        if !writes && !works {
          written :| 0 <= written <= |priv|;
        }
        Put(disk.(temp := Some(priv[..written])));
        if (writes && ends) || works {
          Put(disk.(temp := Some(Stored(priv))));
        }
      }
      if !works {
        Put(disk.(temp := None));
        return false;
      }
      Put(disk.(key := disk.temp, temp := None));
      return true;
    }

    /** `copyFileMode` from the key file to its `.old` copy. */
    method CopyToBackup(works: bool) returns (ok: bool)
      requires Valid() && disk.key.Some?
      modifies this
      ensures ok <==> works
      ensures Valid() && old(trail) <= trail && disk.key == old(disk.key)
      ensures ok ==> disk.backup == old(disk.key)
      ensures forall i :: |old(trail)| <= i < |trail| ==> trail[i].key == old(disk.key)
    {
      var content := disk.key.value;
      var opens: bool, copies: bool := *, *;
      if !opens && !works {
        return false;
      }
      Put(disk.(backup := Some("")));
      var copied := |content|;
      if !copies && !works {
        copied :| 0 <= copied <= |content|;
      }
      Put(disk.(backup := Some(content[..copied])));
      assert content[..|content|] == content;
      return works;
    }

    /** `domainEmailDKIMRotateHandler`; `fresh` is what key generation returned.
        At every point of a rotation the key file is the old or the new one,
        complete, with the old one saved before it is replaced; the TXT values
        answered belong to the key that was and the key that is on disk. */
    method Rotate(pub: Ed25519, generated: Option<Seed>, e: Env) returns (r: RotateResult)
      requires Valid()
      modifies this
      ensures Valid() && old(trail) <= trail
      ensures r.NoKey? <==> old(disk.key) == None
      ensures r.NoKey? ==> trail == old(trail)
      ensures r.Rotated? || r.ReloadFailed? <==>
        && old(disk.key).Some? && e.readable && ParseKey(old(disk.key).value).Ok?
        && e.copies && generated.Some? && e.writes
      ensures r.Rotated? ==> e.reloads || e.notSupported
      ensures r.ReloadFailed? ==> !e.reloads && !e.notSupported
      ensures old(disk.key).Some? ==>
        var becomes := if generated.Some? then KeyFile(generated.value) else old(disk.key).value;
        forall i :: |old(trail)| <= i < |trail| ==> SafePoint(trail[i], old(disk.key).value, becomes)
      ensures r.Rotated? ==>
        && old(disk.key).Some? && ParseKey(old(disk.key).value).Ok?
        && Announces(r.oldTxt, pub(ParseKey(old(disk.key).value).value))
        && disk.key.Some? && ParseKey(disk.key.value).Ok?
        && Announces(r.newTxt, pub(ParseKey(disk.key.value).value))
      ensures r.Rotated? || r.ReloadFailed? ==>
        generated.Some? && disk.key == Some(KeyFile(generated.value)) && disk.backup == old(disk.key)
      ensures r.NoKey? || r.RotateFailed? ==> disk.key == old(disk.key)
    {
      hide Encode, Announces, Txt;
      var existing := LoadEd25519(e.readable);
      if existing.Err? {
        return if existing.error == NotFound then NoKey else RotateFailed;
      }
      var oldTxt := Txt(pub, existing.value);
      TxtAnnounces(pub, existing.value);
      var saved := CopyToBackup(e.copies);
      if !saved {
        return RotateFailed;
      }
      if generated == None {
        return RotateFailed;
      }
      var seed := generated.value;
      KeyFileRoundTrip(seed);
      TxtAnnounces(pub, seed);
      var written := WritePrivate(Encode(seed), e.writes);
      if !written {
        return RotateFailed;
      }
      if !e.reloads && !e.notSupported {
        return ReloadFailed;
      }
      return Rotated(oldTxt, Txt(pub, seed));
    }

    /** `ensureDKIMKey`: an existing key is kept, and the TXT value answered is
        the one of the key on disk. */
    method EnsureKey(pub: Ed25519, generated: Option<Seed>, e: Env) returns (r: Option<string>)
      requires Valid()
      modifies this
      ensures Valid() && old(trail) <= trail && disk.backup == old(disk.backup)
      ensures old(disk.key).Some? ==> disk == old(disk) && trail == old(trail)
      ensures r.Some? <==>
        && e.visible
        && if old(disk.key).Some? then e.readable && ParseKey(old(disk.key).value).Ok? else generated.Some? && e.writes
      ensures r.Some? ==>
        disk.key.Some? && ParseKey(disk.key.value).Ok? && Announces(r.value, pub(ParseKey(disk.key.value).value))
      ensures r.Some? && old(disk.key) == None ==> disk.key == Some(KeyFile(generated.value))
      ensures forall i :: |old(trail)| <= i < |trail| ==>
        trail[i].key == None || (generated.Some? && trail[i].key == Some(KeyFile(generated.value)))
    {
      hide Encode, Announces, Txt;
      if !e.visible {
        return None;
      }
      if disk.key.Some? {
        var seed := LoadEd25519(e.readable);
        if seed.Err? {
          return None;
        }
        TxtAnnounces(pub, seed.value);
        return Some(Txt(pub, seed.value));
      }
      if generated == None {
        return None;
      }
      KeyFileRoundTrip(generated.value);
      TxtAnnounces(pub, generated.value);
      var written := WritePrivate(Encode(generated.value), e.writes);
      return if written then Some(Txt(pub, generated.value)) else None;
    }
  }

  /** Wherever a rotation of a loadable key stops, the key file loads as the old
      or the new seed, and if it is not the old one, moving `.old` back restores it. */
  lemma RecoverableAnywhere(d: Disk, was: string, oldSeed: Seed, newSeed: Seed)
    requires ParseKey(was) == Ok(oldSeed)
    requires SafePoint(d, was, KeyFile(newSeed))
    ensures d.key.Some? && (ParseKey(d.key.value) == Ok(oldSeed) || ParseKey(d.key.value) == Ok(newSeed))
    ensures ParseKey(d.key.value) != Ok(oldSeed) ==> d.backup.Some? && ParseKey(d.backup.value) == Ok(oldSeed)
  {
    KeyFileRoundTrip(newSeed);
  }
}
