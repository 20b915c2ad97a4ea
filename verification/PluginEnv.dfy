/** Settings of a native plugin: the env file, and apply, rollback and commit
    (internal/api/handlers_plugin_native.go:130-136, 255-398). */
module PluginEnv {
  import opened ByteOrder
  import opened Text
  import opened Wrappers

  type Env = map<string, string>

  // ---- keys and values ----

  predicate Letter(c: char) { 'A' <= c <= 'Z' || c == '_' }

  /** ^[A-Z_][A-Z0-9_]{0,63}$ */
  predicate KeyOk(k: string) {
    0 < |k| <= 64 && Letter(k[0]) && forall i :: 0 < i < |k| ==> Letter(k[i]) || IsDigit(k[i])
  }

  /** One line without quotes or substitutions. */
  predicate ValueOk(v: string) { forall c <- v :: c !in {'\r', '\n', '\"', '\'', '\\', '$', '`'} }

  /** A setting the hub keeps: the window neither sees nor changes it. */
  predicate HubKey(k: string) { "NKT_" <= k }

  function HubPart(env: Env): Env { map k | k in env && HubKey(k) :: env[k] }

  // ---- the file ----

  function Header(name: string): string { "# nkt: настройки плагина хаба " + name + " — секреты, только root." }

  function Setting(k: string, v: string): string { k + "=" + v }

  function Settings(keys: seq<string>, env: Env): seq<string>
    requires forall k <- keys :: k in env
  {
    if keys == [] then []
    else Settings(keys[..|keys| - 1], env) + [Setting(keys[|keys| - 1], env[keys[|keys| - 1]])]
  }

  /** pluginNativeEnvText. */
  ghost function EnvText(name: string, env: Env): string {
    Terminated([Header(name)] + Settings(Sorted(env.Keys), env))
  }

  function ReadLine(env: Env, line: string): Env {
    var k := FirstField(line, '=');
    if line == "" || line[0] == '#' || k == line || !KeyOk(k) then env
    else env[k := line[|k| + 1..]]
  }

  function ReadLines(env: Env, ls: seq<string>): Env {
    if ls == [] then env else ReadLine(ReadLines(env, ls[..|ls| - 1]), ls[|ls| - 1])
  }

  /** pluginNativeEnvRead. */
  function EnvRead(text: string): Env { ReadLines(map[], Lines(text)) }

  method ReadEnv(text: string) returns (env: Env)
    ensures env == EnvRead(text)
  {
    var ls := Lines(text);
    env := map[];
    var i := 0;
    while i < |ls|
      invariant 0 <= i <= |ls| && env == ReadLines(map[], ls[..i])
    {
      var line := ls[i];
      assert ls[..i + 1][..i] == ls[..i];
      if line != "" && line[0] != '#' {
        var k := FirstField(line, '=');
        if k != line && KeyOk(k) {
          env := env[k := line[|k| + 1..]];
        }
      }
      i := i + 1;
    }
    assert ls[..|ls|] == ls;
  }

  method PrintEnv(name: string, env: Env) returns (text: string)
    ensures text == EnvText(name, env)
  {
    var keys := SortStrings(env.Keys);
    OneAscending(keys, Sorted(env.Keys), env.Keys);
    text := Header(name) + "\n";
    TerminatedNext([], Header(name));
    var i := 0;
    while i < |keys|
      invariant 0 <= i <= |keys| && (forall k <- keys :: k in env)
      invariant text == Terminated([Header(name)] + Settings(keys[..i], env))
    {
      var k := keys[i];
      assert keys[..i + 1][..i] == keys[..i];
      ghost var ls, line := [Header(name)] + Settings(keys[..i], env), Setting(k, env[k]);
      TerminatedNext(ls, line);
      assert ls + [line] == [Header(name)] + Settings(keys[..i + 1], env);
      text := text + (Setting(k, env[k]) + "\n");
      i := i + 1;
    }
    assert keys[..|keys|] == keys;
  }

  // ---- the round trip ----

  /** What the file format can carry. */
  predicate Printable(env: Env) { forall k <- env :: KeyOk(k) && '\n' !in env[k] }

  lemma {:induction false} ReadsPrintable(env: Env, ls: seq<string>)
    requires Printable(env) && forall i :: 0 <= i < |ls| ==> '\n' !in ls[i]
    ensures Printable(ReadLines(env, ls))
  {
    if ls != [] {
      ReadsPrintable(env, ls[..|ls| - 1]);
    }
  }

  /** Whatever a file holds, what is read from it can be printed. */
  lemma EnvReadPrintable(text: string)
    ensures Printable(EnvRead(text))
  {
    ReadsPrintable(map[], Lines(text));
  }

  lemma ReadsSetting(env: Env, k: string, v: string)
    requires KeyOk(k)
    ensures ReadLine(env, Setting(k, v)) == env[k := v]
  {
    FirstFieldOf(k, v, '=');
  }

  lemma {:induction false} SettingsOneLine(keys: seq<string>, env: Env)
    requires Printable(env) && forall k <- keys :: k in env
    ensures forall i :: 0 <= i < |Settings(keys, env)| ==> '\n' !in Settings(keys, env)[i]
  {
    if keys != [] {
      SettingsOneLine(keys[..|keys| - 1], env);
    }
  }

  lemma {:induction false} SettingsRead(keys: seq<string>, env: Env)
    requires Printable(env) && forall k <- keys :: k in env
    ensures ReadLines(map[], Settings(keys, env)) == map k | k in env && k in keys :: env[k]
  {
    if keys != [] {
      var rest, k := keys[..|keys| - 1], keys[|keys| - 1];
      SettingsRead(rest, env);
      ReadsSetting(ReadLines(map[], Settings(rest, env)), k, env[k]);
      assert keys == rest + [k];
    }
  }

  lemma {:induction false} ReadLinesConcat(env: Env, a: seq<string>, b: seq<string>)
    ensures ReadLines(env, a + b) == ReadLines(ReadLines(env, a), b)
  {
    if b == [] {
      assert a + b == a;
    } else {
      assert (a + b)[..|a + b| - 1] == a + b[..|b| - 1];
      ReadLinesConcat(env, a, b[..|b| - 1]);
    }
  }

  lemma HeaderRead(name: string)
    ensures Header(name)[0] == '#' && ReadLines(map[], [Header(name)]) == map[]
    ensures '\n' !in name ==> '\n' !in Header(name)
  {
    assert [Header(name)][..0] == [];
    assert ReadLines(map[], []) == map[];
  }

  lemma PrintableReadBack(name: string, env: Env)
    requires '\n' !in name && Printable(env)
    ensures EnvRead(EnvText(name, env)) == env
  {
    var keys := Sorted(env.Keys);
    var head, body := Header(name), Settings(keys, env);
    HeaderRead(name);
    SettingsOneLine(keys, env);
    TerminatedLines([head] + body);
    ReadLinesConcat(map[], [head] + body, [""]);
    ReadLinesConcat(map[], [head], body);
    SettingsRead(keys, env);
    assert [""][..0] == [];
  }

  /** The very text of a file with one setting. */
  lemma OneSettingText(name: string, k: string, v: string)
    ensures EnvText(name, map[k := v]) ==
      "# nkt: настройки плагина хаба " + name + " — секреты, только root.\n" + (k + "=" + v + "\n")
  {
    var env := map[k := v];
    assert env.Keys == {k};
    OneAscending(Sorted(env.Keys), [k], {k});
    assert [k][..0] == [] && Settings([k], env) == [] + [Setting(k, v)] == [Setting(k, v)];
    var head, line := Header(name), Setting(k, v);
    assert [head, line] == [head] + [line] && [head] == [] + [head];
    TerminatedNext([head], line);
    TerminatedNext([], head);
    assert Terminated([]) + (head + "\n") == head + "\n";
    TwoLines("# nkt: настройки плагина хаба " + name, " — секреты, только root.", k + "=" + v);
  }

  lemma TwoLines(a: string, b: string, line: string)
    ensures a + b + "\n" + (line + "\n") == a + (b + "\n") + (line + "\n")
  {}

  /** Reading back a printed env gives the same env exactly when every key is valid and no
      value holds a newline. */
  lemma RoundTripIff(name: string, env: Env)
    requires '\n' !in name
    ensures EnvRead(EnvText(name, env)) == env <==> Printable(env)
  {
    if Printable(env) {
      PrintableReadBack(name, env);
    } else {
      EnvReadPrintable(EnvText(name, env));
    }
  }

  // ---- apply, rollback, commit ----

  /** The .env file and .env.prev, as they are on the disk. */
  datatype Files = Files(env: Option<string>, prev: Option<string>)

  /** wrotePrev and wroteEnv tell which writes succeed, deleted whether .env.prev can be
      deleted, an error the code drops; a write is atomic. */
  datatype Op =
    | Read
    | Apply(set_: Env, wrotePrev: bool, wroteEnv: bool)
    | Rollback(wroteEnv: bool, deleted: bool)
    | Commit(deleted: bool)
    | Install(env: Option<Env>, port: nat)
    | Unknown

  predicate SetOk(s: Env) { forall k <- s :: KeyOk(k) && !HubKey(k) && ValueOk(s[k]) }

  /** An empty value removes the setting. */
  function Merged(env: Env, s: Env): Env {
    map k | k in env.Keys + s.Keys && !(k in s && s[k] == "") :: if k in s then s[k] else env[k]
  }

  function WithAddress(env: Env, port: nat): Env {
    env["NKT_PLUGIN_LISTEN" := "127.0.0.1"]["NKT_PLUGIN_PORT" := Dec(port)]
  }

  predicate InstallOk(env: Env) { forall k <- env :: KeyOk(k) && ValueOk(env[k]) }

  /** One request. The handlers read the .env file first and refuse when there is none. */
  ghost function Next(name: string, f: Files, op: Op): Files {
    match op
    case Install(env, port) =>
      if env.Some? && InstallOk(env.value) then f.(env := Some(EnvText(name, WithAddress(env.value, port)))) else f
    case Apply(s, wrotePrev, wroteEnv) =>
      if f.env.None? || !SetOk(s) || !wrotePrev then f
      else
        var env := EnvRead(f.env.value);
        Files(if wroteEnv then Some(EnvText(name, Merged(env, s))) else f.env, Some(EnvText(name, env)))
    case Rollback(wroteEnv, deleted) =>
      if f.env.None? || f.prev.None? || !wroteEnv then f
      else Files(Some(EnvText(name, EnvRead(f.prev.value))), if deleted then None else f.prev)
    case Commit(deleted) => if f.env.None? || !deleted then f else f.(prev := None)
    case Read => f
    case Unknown => f
  }

  ghost function NextAll(name: string, f: Files, ops: seq<Op>): Files {
    if ops == [] then f else Next(name, NextAll(name, f, ops[..|ops| - 1]), ops[|ops| - 1])
  }

  /** What a plugin is started with. */
  function SettingsOf(f: Option<string>): Option<Env> { if f.Some? then Some(EnvRead(f.value)) else None }

  /** The hub's settings in .env, and in .env.prev if it is there. */
  ghost predicate HubKept(f: Files, hub: Env) {
    && f.env.Some? && HubPart(EnvRead(f.env.value)) == hub
    && (f.prev.Some? ==> HubPart(EnvRead(f.prev.value)) == hub)
  }

  lemma StepKeepsHub(name: string, f: Files, op: Op, hub: Env)
    requires '\n' !in name && HubKept(f, hub) && !op.Install?
    ensures HubKept(Next(name, f, op), hub)
  {
    var env := EnvRead(f.env.value);
    EnvReadPrintable(f.env.value);
    if op.Apply? && SetOk(op.set_) {
      PrintableReadBack(name, env);
      PrintableReadBack(name, Merged(env, op.set_));
    }
    if op.Rollback? && f.prev.Some? {
      EnvReadPrintable(f.prev.value);
      PrintableReadBack(name, EnvRead(f.prev.value));
    }
  }

  /** Without a reinstall, no run of requests changes a setting of the hub. */
  lemma {:induction false} RunsKeepHub(name: string, f: Files, ops: seq<Op>, hub: Env)
    requires '\n' !in name && HubKept(f, hub) && forall i :: 0 <= i < |ops| ==> !ops[i].Install?
    ensures HubKept(NextAll(name, f, ops), hub)
  {
    if ops != [] {
      RunsKeepHub(name, f, ops[..|ops| - 1], hub);
      StepKeepsHub(name, NextAll(name, f, ops[..|ops| - 1]), ops[|ops| - 1], hub);
    }
  }

  /** So every setting whose key begins with NKT_ reads as it did. */
  lemma RunsKeepNkt(name: string, f: Files, ops: seq<Op>, rest: string)
    requires '\n' !in name && NoInstall(ops) && f.env.Some?
    requires f.prev.Some? ==> HubPart(SettingsOf(f.prev).value) == HubPart(SettingsOf(f.env).value)
    ensures var k, g := "NKT_" + rest, NextAll(name, f, ops);
      var before, after := SettingsOf(f.env).value, SettingsOf(g.env);
      after.Some? && (k in after.value <==> k in before) && (k in before ==> after.value[k] == before[k])
  {
    var k, before := "NKT_" + rest, SettingsOf(f.env).value;
    RunsKeepHub(name, f, ops, HubPart(before));
    var after := SettingsOf(NextAll(name, f, ops).env).value;
    assert HubKey(k) && (k in HubPart(before) <==> k in HubPart(after));
    assert k in before ==> HubPart(before)[k] == HubPart(after)[k];
  }

  ghost predicate NoInstall(ops: seq<Op>) { forall i :: 0 <= i < |ops| ==> !ops[i].Install? }

  /** No run without a reinstall changes the hub's settings in .env. */
  ghost predicate EveryRunKeepsHub(name: string, f: Files, hub: Env) {
    forall ops :: NoInstall(ops) ==>
      var g := NextAll(name, f, ops); g.env.Some? && HubPart(EnvRead(g.env.value)) == hub
  }

  /** That holds exactly if there is no .env.prev, or one with the same settings of the hub. */
  lemma RunsKeepHubIff(name: string, f: Files)
    requires '\n' !in name && f.env.Some?
    ensures var hub := HubPart(EnvRead(f.env.value));
      EveryRunKeepsHub(name, f, hub) <==> f.prev.None? || HubPart(EnvRead(f.prev.value)) == hub
  {
    var hub := HubPart(EnvRead(f.env.value));
    if f.prev.None? || HubPart(EnvRead(f.prev.value)) == hub {
      forall ops | NoInstall(ops)
        ensures var g := NextAll(name, f, ops); g.env.Some? && HubPart(EnvRead(g.env.value)) == hub
      {
        RunsKeepHub(name, f, ops, hub);
      }
    } else {
      var back := [Rollback(true, true)];
      EnvReadPrintable(f.prev.value);
      PrintableReadBack(name, EnvRead(f.prev.value));
      assert back[..0] == [] && NoInstall(back);
      assert NextAll(name, f, back) == Next(name, f, back[0]);
    }
  }

  lemma RollbackOfApply(name: string, f: Files, s: Env, wroteEnv: bool, deleted: bool)
    requires '\n' !in name && f.env.Some? && SetOk(s)
    ensures var g := Next(name, Next(name, f, Apply(s, true, wroteEnv)), Rollback(true, deleted));
      g.env == Some(EnvText(name, EnvRead(f.env.value))) && (deleted ==> g.prev == None)
    ensures EnvRead(EnvText(name, EnvRead(f.env.value))) == EnvRead(f.env.value)
  {
    EnvReadPrintable(f.env.value);
    PrintableReadBack(name, EnvRead(f.env.value));
  }

  /** An apply whose old settings were saved, whatever became of it, and reads after it: a
      rollback brings the old settings back. */
  lemma ApplyThenRollback(name: string, f: Files, s: Env, wroteEnv: bool, looks: seq<Op>, deleted: bool)
    requires '\n' !in name && f.env.Some? && SetOk(s) && forall i :: 0 <= i < |looks| ==> looks[i].Read?
    ensures var g := Next(name, NextAll(name, Next(name, f, Apply(s, true, wroteEnv)), looks), Rollback(true, deleted));
      SettingsOf(g.env) == SettingsOf(f.env) && (deleted ==> g.prev == None)
  {
    ReadsChangeNothing(name, Next(name, f, Apply(s, true, wroteEnv)), looks);
    RollbackOfApply(name, f, s, wroteEnv, deleted);
  }

  lemma {:induction false} ReadsChangeNothing(name: string, f: Files, looks: seq<Op>)
    requires forall i :: 0 <= i < |looks| ==> looks[i].Read?
    ensures NextAll(name, f, looks) == f
  {
    if looks != [] {
      ReadsChangeNothing(name, f, looks[..|looks| - 1]);
    }
  }

  /** A rollback is refused: there is nothing to return to. */
  predicate RollbackRefused(f: Files) { f.prev.None? }

  ghost predicate NoApply(ops: seq<Op>) { forall i :: 0 <= i < |ops| ==> !ops[i].Apply? }

  lemma {:induction false} NoPrevStays(name: string, f: Files, ops: seq<Op>)
    requires RollbackRefused(f) && NoApply(ops)
    ensures RollbackRefused(NextAll(name, f, ops))
  {
    if ops != [] {
      NoPrevStays(name, f, ops[..|ops| - 1]);
    }
  }

  /** After a commit every rollback is refused until settings are applied again, exactly if
      .env.prev could be deleted or was not there. */
  lemma CommitThenNoRollback(name: string, f: Files, deleted: bool)
    requires f.env.Some?
    ensures (forall ops :: NoApply(ops) ==> RollbackRefused(NextAll(name, Next(name, f, Commit(deleted)), ops)))
      <==> deleted || f.prev.None?
  {
    var g := Next(name, f, Commit(deleted));
    if deleted || f.prev.None? {
      forall ops | NoApply(ops) ensures RollbackRefused(NextAll(name, g, ops)) {
        NoPrevStays(name, g, ops);
      }
    } else {
      assert NoApply([]) && NextAll(name, g, []) == g;
    }
  }

  /** A reinstall leaves .env.prev: a rollback after it takes away everything the
      reinstall wrote, the hub's settings too. */
  lemma ReinstallIsRolledBack(name: string, one: Env, s: Env, two: Env, port: nat)
    requires '\n' !in name && Printable(one) && SetOk(s) && InstallOk(two)
    ensures var f := Next(name, Files(Some(EnvText(name, one)), None), Apply(s, true, true));
      var g := Next(name, f, Install(Some(two), port));
      SettingsOf(g.env) == Some(WithAddress(two, port)) &&
        SettingsOf(Next(name, g, Rollback(true, true)).env) == Some(one)
  {
    PrintableReadBack(name, one);
    InstallPrintable(two, port);
    PrintableReadBack(name, WithAddress(two, port));
  }

  lemma InstallPrintable(env: Env, port: nat)
    requires InstallOk(env)
    ensures Printable(WithAddress(env, port))
  {
    assert KeyOk("NKT_PLUGIN_LISTEN") && KeyOk("NKT_PLUGIN_PORT");
    forall k | k in env ensures '\n' !in env[k] {
      assert forall c <- env[k] :: c != '\n';
    }
    var digits := Dec(port);
    assert forall i :: 0 <= i < |digits| ==> digits[i] != '\n';
  }

  // ---- what an apply saves ----

  /** From before to after, s was set: what it gives "" is gone, the rest of it reads as given,
      and nothing else changed. */
  ghost predicate IsSet(before: Env, s: Env, after: Env) {
    && (forall k <- s :: if s[k] == "" then k !in after else k in after && after[k] == s[k])
    && forall k :: k !in s ==> (k in after <==> k in before) && (k in after ==> after[k] == before[k])
  }

  /** After a successful apply .env reads as set, and .env.prev as .env did before. */
  ghost predicate Saved(f: Files, s: Env, g: Files) {
    && f.env.Some? && g.env.Some?
    && SettingsOf(g.prev) == SettingsOf(f.env)
    && IsSet(SettingsOf(f.env).value, s, SettingsOf(g.env).value)
  }

  lemma ApplySaves(name: string, f: Files, s: Env)
    requires '\n' !in name && f.env.Some? && SetOk(s)
    ensures Saved(f, s, Next(name, f, Apply(s, true, true)))
  {
    var env := EnvRead(f.env.value);
    EnvReadPrintable(f.env.value);
    PrintableReadBack(name, env);
    assert Printable(Merged(env, s));
    PrintableReadBack(name, Merged(env, s));
  }

  /** A reinstall writes the settings it was given, and where the plugin is to listen. */
  lemma InstallSaves(name: string, f: Files, env: Env, port: nat, listen: string, portKey: string)
    requires '\n' !in name && InstallOk(env)
    requires listen == "NKT_PLUGIN_LISTEN" && portKey == "NKT_PLUGIN_PORT"
    ensures var g := Next(name, f, Install(Some(env), port));
      && g.prev == f.prev && g.env.Some?
      && IsSet(env, map[listen := "127.0.0.1", portKey := Dec(port)], SettingsOf(g.env).value)
  {
    InstallPrintable(env, port);
    PrintableReadBack(name, WithAddress(env, port));
    var digits := Dec(port);
    assert digits != "" && listen != portKey;
  }

  // ---- the handler ----

  class Plugin {
    const name: string
    var env: Option<string>
    var prev: Option<string>

    ghost function Now(): Files
      reads this
    {
      Files(env, prev)
    }

    method DoApply(s: Env, wrotePrev: bool, wroteEnv: bool) returns (ok: bool)
      modifies this
      ensures Now() == Next(name, old(Now()), Apply(s, wrotePrev, wroteEnv))
      ensures ok <==> old(env).Some? && SetOk(s) && wrotePrev && wroteEnv
      ensures ok && '\n' !in name ==> Saved(old(Now()), s, Now())
      ensures !ok ==> env == old(env)
    {
      ghost var before := Now();
      if env.None? || !SetOk(s) {
        return false;
      }
      var settings := ReadEnv(env.value);
      if !wrotePrev {
        return false;
      }
      var text := PrintEnv(name, settings);
      prev := Some(text);
      var next := Merged(settings, s);
      if !wroteEnv {
        return false;
      }
      text := PrintEnv(name, next);
      env := Some(text);
      ok := true;
      if '\n' !in name {
        ApplySaves(name, before, s);
      }
    }

    method DoRollback(wroteEnv: bool, deleted: bool) returns (ok: bool)
      modifies this
      ensures Now() == Next(name, old(Now()), Rollback(wroteEnv, deleted))
      ensures ok <==> old(env).Some? && old(prev).Some? && wroteEnv
      ensures ok && '\n' !in name ==> SettingsOf(env) == SettingsOf(old(prev))
      ensures ok ==> prev == if deleted then None else old(prev)
      ensures !ok ==> Now() == old(Now())
    {
      if env.None? || prev.None? || !wroteEnv {
        return false;
      }
      var settings := ReadEnv(prev.value);
      var text := PrintEnv(name, settings);
      if '\n' !in name {
        EnvReadPrintable(prev.value);
        PrintableReadBack(name, settings);
      }
      env := Some(text);
      if deleted {
        prev := None;
      }
      ok := true;
    }

    method DoCommit(deleted: bool)
      modifies this
      ensures Now() == Next(name, old(Now()), Commit(deleted))
      ensures env == old(env) && prev == if old(env).Some? && deleted then None else old(prev)
    {
      if env.Some? && deleted {
        prev := None;
      }
    }
  }
}
