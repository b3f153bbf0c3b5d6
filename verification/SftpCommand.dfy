/** The two printers of the SSH command line: the `sftp.command` option of
    sftpopts.go and the argv of sftpmkdir.go. */
module SftpCommand {
  import opened Text
  import opened ShellWords

  datatype Inputs = Inputs(host: string, user: string, port: int, path: string, auth: string, keyPath: string)

  predicate UsesKey(x: Inputs) {
    x.auth == "key" && x.keyPath != ""
  }

  predicate UsesPort(x: Inputs) {
    x.port > 0 && x.port != 22
  }

  predicate NeedsOverride(x: Inputs) {
    x.auth == "password" || UsesKey(x) || UsesPort(x)
  }

  /** The ssh argv up to and including user@host. */
  function CommonArgs(x: Inputs, key: string): seq<string> {
    (if x.auth == "password" then ["sshpass", "-e"] else [])
    + ["ssh"]
    + (if UsesKey(x) then ["-i", key, "-o", "IdentitiesOnly=yes"] else [])
    + ["-o", "StrictHostKeyChecking=accept-new"]
    + (if x.auth == "password"
       then ["-o", "PreferredAuthentications=password", "-o", "PubkeyAuthentication=no"]
       else ["-o", "BatchMode=yes"])
    + (if UsesPort(x) then ["-p", Decimal(x.port)] else [])
    + [x.user + "@" + x.host]
  }

  /** `shellQuote`. */
  function ShellQuote(s: string): string {
    if forall c :: c in s ==> c !in " \t'\"\\" then s
    else "'" + ReplaceChar(s, '\'', "'\"'\"'") + "'"
  }

  /** `SFTPCommandFlag`. */
  method SFTPCommandFlag(x: Inputs) returns (flag: string)
    ensures flag == if NeedsOverride(x)
                    then "sftp.command=" + Join(CommonArgs(x, ShellQuote(x.keyPath)) + ["-s", "sftp"], ' ')
                    else ""
  {
    var needsOverride := x.auth == "password" || (x.auth == "key" && x.keyPath != "") || (x.port > 0 && x.port != 22);
    if !needsOverride {
      return "";
    }
    var parts: seq<string> := [];
    if x.auth == "password" {
      parts := parts + ["sshpass", "-e"];
    }
    parts := parts + ["ssh"];
    if x.auth == "key" && x.keyPath != "" {
      parts := parts + ["-i", ShellQuote(x.keyPath), "-o", "IdentitiesOnly=yes"];
    }
    parts := parts + ["-o", "StrictHostKeyChecking=accept-new"];
    if x.auth == "password" {
      parts := parts + ["-o", "PreferredAuthentications=password", "-o", "PubkeyAuthentication=no"];
    } else {
      parts := parts + ["-o", "BatchMode=yes"];
    }
    if x.port > 0 && x.port != 22 {
      parts := parts + ["-p", Decimal(x.port)];
    }
    parts := parts + [x.user + "@" + x.host, "-s", "sftp"];
    assert parts == CommonArgs(x, ShellQuote(x.keyPath)) + ["-s", "sftp"];
    return "sftp.command=" + Join(parts, ' ');
  }

  /** `buildSSHMkdirArgs`. */
  method BuildSSHMkdirArgs(x: Inputs) returns (parts: seq<string>)
    ensures parts == CommonArgs(x, x.keyPath) + ["--", "mkdir", "-p", x.path]
  {
    parts := [];
    if x.auth == "password" {
      parts := parts + ["sshpass", "-e"];
    }
    parts := parts + ["ssh"];
    if x.auth == "key" && x.keyPath != "" {
      parts := parts + ["-i", x.keyPath, "-o", "IdentitiesOnly=yes"];
    }
    parts := parts + ["-o", "StrictHostKeyChecking=accept-new"];
    if x.auth == "password" {
      parts := parts + ["-o", "PreferredAuthentications=password", "-o", "PubkeyAuthentication=no"];
    } else {
      parts := parts + ["-o", "BatchMode=yes"];
    }
    if x.port > 0 && x.port != 22 {
      parts := parts + ["-p", Decimal(x.port)];
    }
    parts := parts + [x.user + "@" + x.host];
    parts := parts + ["--", "mkdir", "-p", x.path];
    assert parts == CommonArgs(x, x.keyPath) + ["--", "mkdir", "-p", x.path];
  }

  /** The command line for each kind of authentication, and when there is one. */
  lemma CommandLines(x: Inputs, key: string)
    ensures var port := if x.port <= 0 || x.port == 22 then [] else ["-p", Decimal(x.port)];
      var account := [x.user + "@" + x.host];
      CommonArgs(x, key) ==
        if x.auth == "password" then
          ["sshpass", "-e", "ssh", "-o", "StrictHostKeyChecking=accept-new", "-o", "PreferredAuthentications=password",
            "-o", "PubkeyAuthentication=no"] + port + account
        else if x.auth == "key" && x.keyPath != "" then
          ["ssh", "-i", key, "-o", "IdentitiesOnly=yes", "-o", "StrictHostKeyChecking=accept-new", "-o",
            "BatchMode=yes"] + port + account
        else ["ssh", "-o", "StrictHostKeyChecking=accept-new", "-o", "BatchMode=yes"] + port + account
    ensures NeedsOverride(x) <==>
      || x.auth == "password" || (x.auth == "key" && x.keyPath != "") || (x.port > 0 && x.port != 22)
  {
    hide Decimal;
  }

  predicate Plain(s: string) {
    forall c :: c in s ==> !IsSpecial(c)
  }

  /** What `shellQuote` handles: a newline is only protected when something
      else in the path forces quotes. */
  predicate Quotable(s: string) {
    '\n' !in s || exists i :: 0 <= i < |s| && s[i] in " \t'\"\\"
  }

  lemma ShellQuoteSpells(s: string)
    requires s != "" && Quotable(s)
    ensures Spells(ShellQuote(s), s)
  {
    if forall c :: c in s ==> c !in " \t'\"\\" {
      PlainSpellsItself(s);
    } else {
      Patches();
      QuotedSpells(s, "'\"'\"'");
    }
  }

  ghost predicate AllSpell(texts: seq<string>, argv: seq<string>) {
    |texts| == |argv| && forall i :: 0 <= i < |texts| ==> Spells(texts[i], argv[i])
  }

  predicate AllPlain(args: seq<string>) {
    forall i :: 0 <= i < |args| ==> args[i] != "" && Plain(args[i])
  }

  /** Only these characters occur in the fixed options. */
  predicate OptionChar(c: char) {
    'a' <= c <= 'z' || 'A' <= c <= 'Z' || c == '=' || c == '-'
  }

  lemma {:induction false} OptionIsPlain(s: string)
    requires forall i :: 0 <= i < |s| ==> OptionChar(s[i])
    ensures Plain(s)
  {
  }

  lemma OptionsArePlain()
    ensures Plain("IdentitiesOnly=yes") && Plain("BatchMode=yes")
    ensures Plain("StrictHostKeyChecking=accept-new")
    ensures Plain("PreferredAuthentications=password") && Plain("PubkeyAuthentication=no")
  {
    hide Plain, IsSpecial;
    OptionIsPlain("IdentitiesOnly=yes");
    OptionIsPlain("BatchMode=yes");
    OptionIsPlain("StrictHostKeyChecking=accept-new");
    OptionIsPlain("PreferredAuthentications=password");
    OptionIsPlain("PubkeyAuthentication=no");
  }

  /** The argv before, and from, the place of the key path. */
  function Before(x: Inputs): seq<string> {
    (if x.auth == "password" then ["sshpass", "-e"] else []) + ["ssh"] + (if UsesKey(x) then ["-i"] else [])
  }

  function After(x: Inputs): seq<string> {
    (if UsesKey(x) then ["-o", "IdentitiesOnly=yes"] else [])
    + ["-o", "StrictHostKeyChecking=accept-new"]
    + (if x.auth == "password"
       then ["-o", "PreferredAuthentications=password", "-o", "PubkeyAuthentication=no"]
       else ["-o", "BatchMode=yes"])
    + (if UsesPort(x) then ["-p", Decimal(x.port)] else [])
    + [x.user + "@" + x.host]
    + ["-s", "sftp"]
  }

  lemma CommonArgsShape(x: Inputs, key: string)
    ensures CommonArgs(x, key) + ["-s", "sftp"] == Before(x) + (if UsesKey(x) then [key] else []) + After(x)
  {
    hide Decimal;
  }

  lemma {:induction false} PlainSpell(args: seq<string>)
    requires AllPlain(args)
    ensures AllSpell(args, args)
  {
    forall i | 0 <= i < |args|
      ensures Spells(args[i], args[i])
    {
      PlainSpellsItself(args[i]);
    }
  }

  lemma AccountIsPlain(x: Inputs)
    requires Plain(x.user) && Plain(x.host)
    ensures Plain(x.user + "@" + x.host) && x.user + "@" + x.host != ""
  {
    assert (x.user + "@" + x.host)[|x.user|] == '@';
  }

  lemma PlainAppend(a: seq<string>, b: seq<string>)
    requires AllPlain(a) && AllPlain(b)
    ensures AllPlain(a + b)
  {
    hide Plain;
  }

  lemma BeforeIsPlain(x: Inputs)
    requires Plain("sshpass") && Plain("-e") && Plain("ssh") && Plain("-i")
    ensures AllPlain(Before(x))
  {
    hide Plain;
    var password := if x.auth == "password" then ["sshpass", "-e"] else [];
    PlainAppend(password, ["ssh"]);
    PlainAppend(password + ["ssh"], if UsesKey(x) then ["-i"] else []);
  }

  lemma AfterIsPlain(x: Inputs)
    requires Plain("-o") && Plain("IdentitiesOnly=yes") && Plain("StrictHostKeyChecking=accept-new")
    requires Plain("PreferredAuthentications=password") && Plain("PubkeyAuthentication=no") && Plain("BatchMode=yes")
    requires Plain("-p") && Plain("-s") && Plain("sftp") && Plain(x.user + "@" + x.host) && x.user + "@" + x.host != ""
    requires UsesPort(x) ==> Plain(Decimal(x.port)) && Decimal(x.port) != ""
    ensures AllPlain(After(x))
  {
    hide Plain, Decimal;
    var key := if UsesKey(x) then ["-o", "IdentitiesOnly=yes"] else [];
    var check := ["-o", "StrictHostKeyChecking=accept-new"];
    var auth := if x.auth == "password"
      then ["-o", "PreferredAuthentications=password", "-o", "PubkeyAuthentication=no"] else ["-o", "BatchMode=yes"];
    var port := if UsesPort(x) then ["-p", Decimal(x.port)] else [];
    PlainAppend(key, check);
    PlainAppend(key + check, auth);
    PlainAppend(key + check + auth, port);
    PlainAppend(key + check + auth + port, [x.user + "@" + x.host]);
    PlainAppend(key + check + auth + port + [x.user + "@" + x.host], ["-s", "sftp"]);
  }

  lemma RestIsPlain(x: Inputs)
    requires Plain(x.user) && Plain(x.host)
    ensures AllPlain(Before(x)) && AllPlain(After(x))
  {
    OptionsArePlain();
    assert Plain("sshpass") && Plain("sftp");
    AccountIsPlain(x);
    assert UsesPort(x) ==> Plain(Decimal(x.port));
    hide Plain, Decimal, AllPlain;
    BeforeIsPlain(x);
    AfterIsPlain(x);
  }

  /** No character of an unprotected newline path, nor of anything around it,
      is a quote or a backslash. */
  lemma {:induction false} JoinedChars(texts: seq<string>)
    requires forall i :: 0 <= i < |texts| ==> forall c :: c in texts[i] ==> c !in "'\"\\"
    ensures forall c :: c in Join(texts, ' ') ==> c !in "'\"\\"
  {
    if |texts| > 1 {
      JoinedChars(texts[1..]);
    }
  }

  /** Whenever an override is emitted, restic's ssh and the mkdir helper run the
      same command line up to and including user@host, unless a newline in the
      key path goes unquoted. */
  lemma BuildersAgree(x: Inputs)
    requires Plain(x.user) && Plain(x.host)
    ensures SplitWords(Join(CommonArgs(x, ShellQuote(x.keyPath)) + ["-s", "sftp"], ' '))
         == Some(CommonArgs(x, x.keyPath) + ["-s", "sftp"])
        <==> !UsesKey(x) || Quotable(x.keyPath)
  {
    hide SplitWords, ShellQuote, CommonArgs, Before, After, Spells, Scan, Plain, Decimal;
    var text, key := ShellQuote(x.keyPath), x.keyPath;
    CommonArgsShape(x, text);
    CommonArgsShape(x, key);
    RestIsPlain(x);
    PlainSpell(Before(x));
    PlainSpell(After(x));
    var middle := if UsesKey(x) then [text] else [];
    var middleArgs := if UsesKey(x) then [key] else [];
    var texts, argv := Before(x) + middle + After(x), Before(x) + middleArgs + After(x);
    if !UsesKey(x) || Quotable(key) {
      if UsesKey(x) {
        ShellQuoteSpells(key);
      }
      WordsAsSpelled(texts, argv);
    } else {
      BrokenKey(x, texts, argv);
    }
  }

  lemma WordsAsSpelled(texts: seq<string>, argv: seq<string>)
    requires AllSpell(texts, argv)
    ensures SplitWords(Join(texts, ' ')) == Some(argv)
  {
    SpelledWords(texts, argv, []);
    assert [] + argv == argv;
  }

  lemma BrokenKey(x: Inputs, texts: seq<string>, argv: seq<string>)
    requires AllPlain(Before(x)) && AllPlain(After(x))
    requires UsesKey(x) && !Quotable(x.keyPath)
    requires texts == Before(x) + [ShellQuote(x.keyPath)] + After(x)
    requires argv == Before(x) + [x.keyPath] + After(x)
    ensures SplitWords(Join(texts, ' ')) != Some(argv)
  {
    hide Before, After, Scan;
    assert ShellQuote(x.keyPath) == x.keyPath;
    JoinedChars(texts);
    UnquotedWordsAreLines(Join(texts, ' '), [], None);
    assert argv[|Before(x)|] == x.keyPath;
  }
}
