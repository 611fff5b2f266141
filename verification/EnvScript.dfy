/**
 The scripts dispatcher pipes into a remote shell: the environment as `export` lines or
 as an env file in a here-document, and the command line around them.
 */
module EnvScript {
  import opened Common
  import opened Shell
  import KeyOrder

  type Env = map<string, string>

  /** [A-Za-z_][A-Za-z0-9_]* */
  predicate KeyChar(c: char) {
    'a' <= c <= 'z' || 'A' <= c <= 'Z' || '0' <= c <= '9' || c == '_'
  }

  predicate ValidKey(k: string) {
    && k != ""
    && (forall i :: 0 <= i < |k| ==> KeyChar(k[i]))
    && !('0' <= k[0] <= '9')
  }

  /** isValidEnvKey: the loop over the characters. */
  method IsValidEnvKey(k: string) returns (ok: bool)
    ensures ok <==> ValidKey(k)
  {
    if k == "" {
      return false;
    }
    for i := 0 to |k|
      invariant forall j :: 0 <= j < i ==> KeyChar(k[j])
      invariant i > 0 ==> !('0' <= k[0] <= '9')
    {
      var r := k[i];
      if 'a' <= r <= 'z' || 'A' <= r <= 'Z' || r == '_' {
        continue;
      }
      if !('0' <= r <= '9') || i == 0 {
        return false;
      }
    }
    return true;
  }

  ghost predicate ValidKeys(kv: Env) {
    forall k :: k in kv ==> ValidKey(k)
  }

  /** `order` lists the keys of `kv` once each: one iteration order of the map. */
  ghost predicate Enumerates(order: seq<string>, kv: Env) {
    && (forall k :: k in order <==> k in kv)
    && (forall i, j :: 0 <= i < j < |order| ==> order[i] != order[j])
  }

  // ---- applyExtraEnv --------------------------------------------------------------

  /** Later maps win. */
  function MergeAll(kv: Env, extra: seq<Env>): Env
    decreases |extra|
  {
    if extra == [] then kv else MergeAll(kv + extra[0], extra[1..])
  }

  lemma {:induction false} MergeAllSnoc(kv: Env, extra: seq<Env>, n: nat)
    requires n < |extra|
    ensures MergeAll(kv, extra[..n + 1]) == MergeAll(kv, extra[..n]) + extra[n]
    decreases n
  {
    if n == 0 {
      assert extra[..1] == [extra[0]] && extra[..1][1..] == [];
    } else {
      MergeAllSnoc(kv + extra[0], extra[1..], n - 1);
      assert extra[..n + 1][1..] == extra[1..][..n] && extra[..n][1..] == extra[1..][..n - 1];
    }
  }

  /** What a merge says of a key: the last map that has it decides, else the first one. */
  ghost predicate Merged(r: Env, kv: Env, extra: seq<Env>) {
    && (forall k :: k in r <==> k in kv || exists i :: 0 <= i < |extra| && k in extra[i])
    && (forall k, i :: 0 <= i < |extra| && k in extra[i] && (forall j :: i < j < |extra| ==> k !in extra[j]) ==>
          k in r && r[k] == extra[i][k])
    && (forall k :: k in kv && (forall i :: 0 <= i < |extra| ==> k !in extra[i]) ==> k in r && r[k] == kv[k])
  }

  lemma MergeAllAppend(kv: Env, extra: seq<Env>, m: Env)
    ensures MergeAll(kv, extra + [m]) == MergeAll(kv, extra) + m
  {
    var all := extra + [m];
    MergeAllSnoc(kv, all, |extra|);
    assert all[..|extra|] == extra && all[..|extra| + 1] == all;
  }

  lemma {:induction false} MergeIsMerged(kv: Env, extra: seq<Env>)
    ensures Merged(MergeAll(kv, extra), kv, extra)
    decreases |extra|
  {
    if extra != [] {
      var init, m := extra[..|extra| - 1], extra[|extra| - 1];
      assert extra == init + [m];
      MergeIsMerged(kv, init);
      MergedOne(MergeAll(kv, init), kv, init, m);
      MergeAllAppend(kv, init, m);
    }
  }

  /** One more map. */
  lemma MergedOne(r: Env, kv: Env, extra: seq<Env>, m: Env)
    requires Merged(r, kv, extra)
    ensures Merged(r + m, kv, extra + [m])
  {
    var all := extra + [m];
    assert all[|extra|] == m;
    assert forall i :: 0 <= i < |extra| ==> all[i] == extra[i];
    forall k ensures k in r + m <==> k in kv || exists i :: 0 <= i < |all| && k in all[i] {
      if i :| 0 <= i < |extra| && k in extra[i] {
        assert k in all[i];
      }
    }
  }

  ghost predicate PartOf(part: Env, whole: Env) {
    part.Keys <= whole.Keys && forall k :: k in part ==> part[k] == whole[k]
  }

  lemma AddOne(kv: Env, seen: Env, m: Env, k: string)
    requires PartOf(seen, m) && ValidKeys(seen) && k in m && ValidKey(k)
    ensures PartOf(seen[k := m[k]], m) && ValidKeys(seen[k := m[k]])
    ensures (kv + seen)[k := m[k]] == kv + seen[k := m[k]]
  {
  }

  /** The inner loop: one map, its keys in any order. */
  method MergeOne(kv: Env, m: Env) returns (r: Result<Env, string>)
    ensures r.Ok? <==> ValidKeys(m)
    ensures r.Ok? ==> r.value == kv + m
    ensures r.Err? ==> !ValidKey(r.error)
  {
    var merged := kv;
    var todo := m.Keys;
    ghost var seen: Env := map[];
    while todo != {}
      invariant todo <= m.Keys && todo + seen.Keys == m.Keys
      invariant PartOf(seen, m) && ValidKeys(seen)
      invariant merged == kv + seen
      decreases todo
    {
      var k :| k in todo;
      if !ValidKey(k) {
        return Err(k);
      }
      AddOne(kv, seen, m, k);
      merged := merged[k := m[k]];
      seen := seen[k := m[k]];
      todo := todo - {k};
    }
    assert seen == m;
    r := Ok(merged);
  }

  method ApplyExtraEnv(kv: Env, extra: seq<Env>) returns (r: Result<Env, string>)
    ensures r.Ok? <==> forall i :: 0 <= i < |extra| ==> ValidKeys(extra[i])
    ensures r.Ok? ==> r.value == MergeAll(kv, extra) && Merged(r.value, kv, extra)
    ensures r.Ok? && ValidKeys(kv) ==> ValidKeys(r.value)
    ensures r.Err? ==> !ValidKey(r.error)
  {
    var merged := kv;
    for n := 0 to |extra|
      invariant forall i :: 0 <= i < n ==> ValidKeys(extra[i])
      invariant merged == MergeAll(kv, extra[..n])
      invariant ValidKeys(kv) ==> ValidKeys(merged)
    {
      var one := MergeOne(merged, extra[n]);
      if one.Err? {
        return one;
      }
      MergeAllSnoc(kv, extra, n);
      merged := one.value;
    }
    assert extra[..|extra|] == extra;
    MergeIsMerged(kv, extra);
    r := Ok(merged);
  }

  // ---- DotEnvExportScript ----------------------------------------------------------

  function ExportLine(k: string, v: string): string {
    "export " + k + "=" + ShellQuote(v) + "\n"
  }

  function RenderExports(order: seq<string>, kv: Env): string
    requires forall k :: k in order ==> k in kv
  {
    if order == [] then ""
    else RenderExports(order[..|order| - 1], kv) + ExportLine(order[|order| - 1], kv[order[|order| - 1]])
  }

  /** The export lines, in whatever order the map is iterated. */
  method DotEnvExportScript(kv: Env) returns (script: string)
    ensures exists order :: Enumerates(order, kv) && script == RenderExports(order, kv)
  {
    script := "";
    ghost var order: seq<string> := [];
    var todo := kv.Keys;
    while todo != {}
      invariant todo <= kv.Keys
      invariant forall k :: k in order <==> k in kv && k !in todo
      invariant forall i, j :: 0 <= i < j < |order| ==> order[i] != order[j]
      invariant script == RenderExports(order, kv)
      decreases todo
    {
      var k :| k in todo;
      ExportsSnoc(order, kv, k);
      script := script + ExportLine(k, kv[k]);
      order := order + [k];
      todo := todo - {k};
    }
  }

  lemma ExportsSnoc(order: seq<string>, kv: Env, k: string)
    requires k in kv && forall x :: x in order ==> x in kv
    ensures RenderExports(order + [k], kv) == RenderExports(order, kv) + ExportLine(k, kv[k])
  {
    assert (order + [k])[..|order|] == order;
  }

  function ExportCommands(order: seq<string>, kv: Env): seq<Command>
    requires forall k :: k in order ==> k in kv
  {
    if order == [] then []
    else ExportCommands(order[..|order| - 1], kv)
         + [Command(["export", order[|order| - 1] + "=" + kv[order[|order| - 1]]], None)]
  }

  lemma RunExportLine(l: Lexer, k: string, v: string)
    requires AtLineStart(l) && ValidKey(k)
    ensures Run(l, ExportLine(k, v)) == l.(done := l.done + [Command(["export", k + "=" + v], None)])
  {
    var a, name, pair := Typed(["export"]), k + "=", k + "=" + v;
    var l1 := l.(words := ["export"]);
    var l2 := l1.(word := Some(name));
    var l3 := l1.(word := Some(pair));
    RunTyped(l, ["export"]);
    assert l.words + ["export"] == ["export"];
    RunOrdinary(l1, name);
    assert "" + name == name;
    Then(l, a, l1, name, l2);
    RunQuoted(l2, v);
    Then(l, a + name, l2, ShellQuote(v), l3);
    RunNewline(l3);
    assert ["export"] + [pair] == ["export", pair];
    Then(l, a + name + ShellQuote(v), l3, "\n", l.(done := l.done + [Command(["export", pair], None)]));
    ExportLineShape(k, v);
  }

  lemma ExportLineShape(k: string, v: string)
    ensures ExportLine(k, v) == Typed(["export"]) + (k + "=") + ShellQuote(v) + "\n"
  {
    assert ["export"][1..] == [];
    assert Typed(["export"]) == "export ";
  }

  lemma {:induction false} RunExports(l: Lexer, order: seq<string>, kv: Env)
    requires AtLineStart(l)
    requires forall k :: k in order ==> k in kv && ValidKey(k)
    ensures Run(l, RenderExports(order, kv)) == l.(done := l.done + ExportCommands(order, kv))
  {
    if order == [] {
      assert l.done + [] == l.done;
    } else {
      var init, k := order[..|order| - 1], order[|order| - 1];
      RunExports(l, init, kv);
      RunConcat(l, RenderExports(init, kv), ExportLine(k, kv[k]));
      RunExportLine(Run(l, RenderExports(init, kv)), k, kv[k]);
      var last := [Command(["export", k + "=" + kv[k]], None)];
      assert l.done + ExportCommands(init, kv) + last == l.done + (ExportCommands(init, kv) + last);
    }
  }

  // ---- What the remote shell does with the commands ----------------------------------

  /** The working directory asked for, the exported variables, and the argv exec'd. */
  datatype Outcome = Outcome(dir: Option<string>, env: Env, argv: seq<string>)

  predicate Dash(s: string) {
    s != "" && s[0] == '-'
  }

  /** Index of the first '=' , or the length. */
  function FirstEquals(s: string): (n: nat)
    ensures n <= |s| && (n < |s| ==> s[n] == '=')
    ensures forall i :: 0 <= i < n ==> s[i] != '='
  {
    if s == "" || s[0] == '=' then 0 else 1 + FirstEquals(s[1..])
  }

  lemma FirstEqualsOfPair(k: string, v: string)
    requires ValidKey(k)
    ensures var s := k + "=" + v;
            FirstEquals(s) == |k| && s[..|k|] == k && s[|k| + 1..] == v
  {
    var s := k + "=" + v;
    assert s[|k|] == '=';
    assert forall i :: 0 <= i < |k| ==> s[i] == k[i];
  }

  /** The remote shell.  It owns some variable names: exporting one of them has the program
      see `answer(name, value)`, or no such variable, whatever was asked for.  In bash, UID is
      read-only, RANDOM yields another number and SHLVL is lowered by exec.  And `enters`
      says for which operands cd enters that very directory: not for one that is missing or
      closed, nor for one that CDPATH leads elsewhere. */
  datatype Sh = Sh(owned: set<string>, answer: (string, string) -> Option<string>, enters: string -> bool)

  /** What the program sees after `export k=v`. */
  function Exported(sh: Sh, env: Env, k: string, v: string): Env {
    if k !in sh.owned then env[k := v]
    else if sh.answer(k, v).Some? then env[k := sh.answer(k, v).value]
    else env - {k}
  }

  predicate Enters(sh: Sh, dir: string) {
    !Dash(dir) && sh.enters(dir)
  }

  /** The shell hands every listed variable on as it was asked to. */
  ghost predicate Obliges(sh: Sh, kv: Env) {
    forall k :: k in kv && k in sh.owned ==> sh.answer(k, kv[k]) == Some(kv[k])
  }

  /** The builtins: an operand of cd or exec that starts with '-' is read as an option.  A cd
      that does not enter its operand does not stop the script. */
  function Execute(sh: Sh, o: Outcome, c: Command): Option<Outcome> {
    if o.argv != [] then Some(o)
    else if c.here.Some? || |c.words| < 2 then None
    else if c.words[0] == "cd" && |c.words| == 2 then
      Some(if Enters(sh, c.words[1]) then o.(dir := Some(c.words[1])) else o)
    else if c.words[0] == "exec" && !Dash(c.words[1]) then Some(o.(argv := c.words[1..]))
    else if c.words[0] == "export" && |c.words| == 2 then
      var n := FirstEquals(c.words[1]);
      if n < |c.words[1]| && ValidKey(c.words[1][..n])
      then Some(o.(env := Exported(sh, o.env, c.words[1][..n], c.words[1][n + 1..])))
      else None
    else None
  }

  function ExecuteAll(sh: Sh, o: Outcome, cs: seq<Command>): Option<Outcome>
    decreases |cs|
  {
    if cs == [] then Some(o)
    else
      var before := ExecuteAll(sh, o, cs[..|cs| - 1]);
      if before.None? then None else Execute(sh, before.value, cs[|cs| - 1])
  }

  lemma {:induction false} ExecuteAllConcat(sh: Sh, o: Outcome, a: seq<Command>, b: seq<Command>)
    ensures ExecuteAll(sh, o, a + b) ==
            if ExecuteAll(sh, o, a).None? then None else ExecuteAll(sh, ExecuteAll(sh, o, a).value, b)
    decreases |b|
  {
    if b == [] {
      assert a + b == a;
    } else {
      assert (a + b)[..|a + b| - 1] == a + b[..|b| - 1];
      ExecuteAllConcat(sh, o, a, b[..|b| - 1]);
    }
  }

  /** `env` with the listed pairs added one by one. */
  function AddAll(env: Env, order: seq<string>, kv: Env): Env
    requires forall k :: k in order ==> k in kv
  {
    if order == [] then env
    else AddAll(env, order[..|order| - 1], kv)[order[|order| - 1] := kv[order[|order| - 1]]]
  }

  lemma {:induction false} AddAllLookup(env: Env, order: seq<string>, kv: Env, k: string)
    requires forall k :: k in order ==> k in kv
    ensures k in AddAll(env, order, kv) <==> k in env || k in order
    ensures k in order ==> AddAll(env, order, kv)[k] == kv[k]
    ensures k in env && k !in order ==> AddAll(env, order, kv)[k] == env[k]
  {
    if order != [] {
      assert order == order[..|order| - 1] + [order[|order| - 1]];
      AddAllLookup(env, order[..|order| - 1], kv, k);
    }
  }

  /** Any order of a map's keys adds exactly the map. */
  lemma AddAllIsUnion(env: Env, order: seq<string>, kv: Env)
    requires Enumerates(order, kv)
    ensures AddAll(env, order, kv) == env + kv
  {
    forall k ensures k in AddAll(env, order, kv) <==> k in env + kv
             ensures k in env + kv ==> AddAll(env, order, kv)[k] == (env + kv)[k]
    {
      AddAllLookup(env, order, kv, k);
    }
  }

  /** What the program sees after exporting the listed pairs one by one. */
  function ExportAll(sh: Sh, env: Env, order: seq<string>, kv: Env): Env
    requires forall k :: k in order ==> k in kv
    decreases |order|
  {
    if order == [] then env
    else Exported(sh, ExportAll(sh, env, order[..|order| - 1], kv), order[|order| - 1], kv[order[|order| - 1]])
  }

  function Lookup(env: Env, k: string): Option<string> {
    if k in env then Some(env[k]) else None
  }

  lemma {:induction false} ExportAllLookup(sh: Sh, env: Env, order: seq<string>, kv: Env, k: string)
    requires forall k :: k in order ==> k in kv
    ensures Lookup(ExportAll(sh, env, order, kv), k) ==
            if k !in order then Lookup(env, k) else if k in sh.owned then sh.answer(k, kv[k]) else Some(kv[k])
    decreases |order|
  {
    if order != [] {
      assert order == order[..|order| - 1] + [order[|order| - 1]];
      ExportAllLookup(sh, env, order[..|order| - 1], kv, k);
    }
  }

  /** Exporting a map, in any order, adds exactly the map, if and only if the shell hands
      its own names on as asked. */
  lemma ExportAllExactly(sh: Sh, env: Env, order: seq<string>, kv: Env)
    requires Enumerates(order, kv)
    ensures ExportAll(sh, env, order, kv) == env + kv <==> Obliges(sh, kv)
  {
    var seen := ExportAll(sh, env, order, kv);
    forall k: string
      ensures Lookup(seen, k) == if k !in kv then Lookup(env, k)
                                 else if k in sh.owned then sh.answer(k, kv[k])
                                 else Some(kv[k])
    {
      ExportAllLookup(sh, env, order, kv, k);
    }
    if Obliges(sh, kv) {
      SameLookups(seen, env + kv);
    } else {
      var k :| k in kv && k in sh.owned && sh.answer(k, kv[k]) != Some(kv[k]);
      assert Lookup(seen, k) != Lookup(env + kv, k);
    }
  }

  lemma SameLookups(a: Env, b: Env)
    requires forall k: string :: Lookup(a, k) == Lookup(b, k)
    ensures a == b
  {
    forall k: string ensures (k in a <==> k in b) && (k in a ==> a[k] == b[k]) {
      assert Lookup(a, k) == Lookup(b, k);
    }
  }

  lemma ExecuteExport(sh: Sh, o: Outcome, k: string, v: string)
    requires o.argv == [] && ValidKey(k)
    ensures Execute(sh, o, Command(["export", k + "=" + v], None)) == Some(o.(env := Exported(sh, o.env, k, v)))
  {
    FirstEqualsOfPair(k, v);
  }

  lemma ExecuteSnoc(sh: Sh, o: Outcome, cs: seq<Command>, c: Command, mid: Outcome)
    requires ExecuteAll(sh, o, cs) == Some(mid)
    ensures ExecuteAll(sh, o, cs + [c]) == Execute(sh, mid, c)
  {
    assert (cs + [c])[..|cs|] == cs;
  }

  lemma {:induction false} ExecuteExports(sh: Sh, o: Outcome, order: seq<string>, kv: Env)
    requires o.argv == []
    requires forall k :: k in order ==> k in kv && ValidKey(k)
    ensures ExecuteAll(sh, o, ExportCommands(order, kv)) == Some(o.(env := ExportAll(sh, o.env, order, kv)))
    decreases |order|
  {
    if order != [] {
      var init, k := order[..|order| - 1], order[|order| - 1];
      ExecuteExports(sh, o, init, kv);
      var mid := o.(env := ExportAll(sh, o.env, init, kv));
      ExecuteExport(sh, mid, k, kv[k]);
      ExecuteSnoc(sh, o, ExportCommands(init, kv), Command(["export", k + "=" + kv[k]], None), mid);
    }
  }

  // ---- The command branch of SSHAdapter.Execute ---------------------------------------

  function CommandScript(dir: string, exports: string, args: seq<string>): string {
    "cd " + ShellQuote(dir) + "\n" + exports + "exec " + ShellQuoteArgs(args) + "\n"
  }

  function ScriptCommands(dir: string, exports: seq<Command>, args: seq<string>): seq<Command> {
    [Command(["cd", dir], None)] + exports + [Command(["exec"] + args, None)]
  }

  lemma RunCd(dir: string)
    ensures Run(START, "cd " + ShellQuote(dir) + "\n") == START.(done := [Command(["cd", dir], None)])
  {
    RunLine(START, ["cd"], [dir]);
    assert ["cd"][1..] == [];
    assert Typed(["cd"]) == "cd ";
    assert ["cd"] + [dir] == ["cd", dir];
    assert [] + [Command(["cd", dir], None)] == [Command(["cd", dir], None)];
  }

  lemma RunExec(l: Lexer, args: seq<string>)
    requires AtLineStart(l) && args != []
    ensures Run(l, "exec " + ShellQuoteArgs(args) + "\n") == l.(done := l.done + [Command(["exec"] + args, None)])
  {
    RunLine(l, ["exec"], args);
    assert ["exec"][1..] == [];
    assert Typed(["exec"]) == "exec ";
  }

  /** The remote shell reads the script as one cd, the exports and one exec. */
  lemma ScriptParses(dir: string, order: seq<string>, kv: Env, args: seq<string>)
    requires forall k :: k in order ==> k in kv && ValidKey(k)
    requires args != []
    ensures Parse(CommandScript(dir, RenderExports(order, kv), args)) ==
            Some(ScriptCommands(dir, ExportCommands(order, kv), args))
  {
    var a := "cd " + ShellQuote(dir) + "\n";
    var b := RenderExports(order, kv);
    var c := "exec " + ShellQuoteArgs(args) + "\n";
    var exports := ExportCommands(order, kv);
    var l1 := START.(done := [Command(["cd", dir], None)]);
    var l2 := START.(done := [Command(["cd", dir], None)] + exports);
    RunCd(dir);
    RunExports(l1, order, kv);
    Then(START, a, l1, b, l2);
    RunExec(l2, args);
    Then(START, a + b, l2, c, START.(done := ScriptCommands(dir, exports, args)));
    CommandScriptShape("cd ", ShellQuote(dir), "\n", b, "exec ", ShellQuoteArgs(args));
  }

  lemma CommandScriptShape(a: string, dir: string, nl: string, exports: string, b: string, args: string)
    ensures a + dir + nl + exports + b + args + nl == (a + dir + nl) + exports + (b + args + nl)
  {
  }

  /** A script that starts in `base` ends with exactly this directory, environment and argv. */
  ghost predicate Delivers(sh: Sh, script: string, base: Env, dir: string, kv: Env, args: seq<string>) {
    && Parse(script).Some?
    && ExecuteAll(sh, Outcome(None, base, []), Parse(script).value) == Some(Outcome(Some(dir), base + kv, args))
  }

  /** Evaluating the script sets the directory, extends the environment by exactly the
      merged map and execs exactly the argument list, for every iteration order of the
      map -- if and only if the shell enters that directory, neither it nor the program starts
      with '-', and the shell hands on every name of its own as asked. */
  lemma ScriptRoundTrip(sh: Sh, base: Env, dir: string, order: seq<string>, kv: Env, args: seq<string>)
    requires ValidKeys(kv) && Enumerates(order, kv) && args != []
    ensures Parse(CommandScript(dir, RenderExports(order, kv), args)).Some?
    ensures Delivers(sh, CommandScript(dir, RenderExports(order, kv), args), base, dir, kv, args)
            <==> Enters(sh, dir) && !Dash(args[0]) && Obliges(sh, kv)
  {
    ScriptParses(dir, order, kv, args);
    EvaluatesExactly(sh, base, dir, order, kv, args);
  }

  lemma EvaluatesExactly(sh: Sh, base: Env, dir: string, order: seq<string>, kv: Env, args: seq<string>)
    requires ValidKeys(kv) && Enumerates(order, kv) && args != []
    ensures ExecuteAll(sh, Outcome(None, base, []), ScriptCommands(dir, ExportCommands(order, kv), args)) ==
            Some(Outcome(Some(dir), base + kv, args))
            <==> Enters(sh, dir) && !Dash(args[0]) && Obliges(sh, kv)
  {
    ScriptOutcome(sh, base, dir, order, kv, args);
    ExportAllExactly(sh, base, order, kv);
  }

  /** What the script does, case by case. */
  lemma ScriptOutcome(sh: Sh, base: Env, dir: string, order: seq<string>, kv: Env, args: seq<string>)
    requires ValidKeys(kv) && (forall k :: k in order ==> k in kv) && args != []
    ensures ExecuteAll(sh, Outcome(None, base, []), ScriptCommands(dir, ExportCommands(order, kv), args)) ==
            if Dash(args[0]) then None
            else Some(Outcome(if Enters(sh, dir) then Some(dir) else None, ExportAll(sh, base, order, kv), args))
  {
    var cd, exports, exec := [Command(["cd", dir], None)], ExportCommands(order, kv), [Command(["exec"] + args, None)];
    var start := Outcome(None, base, []);
    ExecuteAllConcat(sh, start, cd + exports, exec);
    ExecuteAllConcat(sh, start, cd, exports);
    ExecuteCd(sh, start, dir);
    var there := if Enters(sh, dir) then Some(dir) else None;
    ExecuteExports(sh, start.(dir := there), order, kv);
    ExecuteExec(sh, Outcome(there, ExportAll(sh, base, order, kv), []), args);
  }

  lemma ExecuteCd(sh: Sh, o: Outcome, dir: string)
    requires o.argv == []
    ensures ExecuteAll(sh, o, [Command(["cd", dir], None)]) == Some(if Enters(sh, dir) then o.(dir := Some(dir)) else o)
  {
    var cd := Command(["cd", dir], None);
    assert [cd][..0] == [];
    assert ExecuteAll(sh, o, [cd]) == Execute(sh, o, cd);
  }

  lemma ExecuteExec(sh: Sh, o: Outcome, args: seq<string>)
    requires o.argv == [] && args != []
    ensures ExecuteAll(sh, o, [Command(["exec"] + args, None)]) ==
            if Dash(args[0]) then None else Some(o.(argv := args))
  {
    var exec := Command(["exec"] + args, None);
    assert [exec][..0] == [];
    assert exec.words[1..] == args;
    assert ExecuteAll(sh, o, [exec]) == Execute(sh, o, exec);
  }

  /** Every shell that owns these names obliges, exactly when the map has none of them. */
  lemma ObligedExactly(owned: set<string>, kv: Env)
    ensures (forall sh: Sh :: sh.owned == owned ==> Obliges(sh, kv)) <==> forall k :: k in kv ==> k !in owned
  {
    if k :| k in kv && k in owned {
      var sh := Sh(owned, (name, value) => None, dir => true);
      assert !Obliges(sh, kv);
    }
  }

  /** A shell that keeps its own UID loses a UID from the environment map. */
  lemma UidIsLost(sh: Sh, base: Env, dir: string, uid: string, args: seq<string>)
    requires args != [] && "UID" in sh.owned && sh.answer("UID", uid) != Some(uid)
    ensures ValidKey("UID") && !Delivers(sh, CommandScript(dir, RenderExports(["UID"], map["UID" := uid]), args),
                                         base, dir, map["UID" := uid], args)
  {
    ScriptRoundTrip(sh, base, dir, ["UID"], map["UID" := uid], args);
  }

  /** A directory that the shell cannot enter does not stop the script: the program runs,
      with its arguments and its environment, in the login directory. */
  lemma MissingDirectoryRunsElsewhere(sh: Sh, base: Env, dir: string, order: seq<string>, kv: Env, args: seq<string>)
    requires ValidKeys(kv) && Enumerates(order, kv) && args != [] && !Dash(args[0]) && !sh.enters(dir) &&
             Obliges(sh, kv)
    ensures var script := CommandScript(dir, RenderExports(order, kv), args);
            && Parse(script).Some?
            && ExecuteAll(sh, Outcome(None, base, []), Parse(script).value) == Some(Outcome(None, base + kv, args))
            && !Delivers(sh, script, base, dir, kv, args)
  {
    ScriptParses(dir, order, kv, args);
    ScriptOutcome(sh, base, dir, order, kv, args);
    ExportAllExactly(sh, base, order, kv);
  }

  /** The whole command branch: for every `.env` map, every list of extra maps, every
      iteration order and every shell, what the shell makes of the script it is sent. */
  method SshCommandScript(dir: string, kv: Env, extra: seq<Env>, args: seq<string>) returns (r: Result<string, string>)
    requires ValidKeys(kv) && args != []
    ensures r.Ok? <==> forall i :: 0 <= i < |extra| ==> ValidKeys(extra[i])
    ensures r.Ok? ==> forall sh: Sh, base: Env ::
              (Delivers(sh, r.value, base, dir, MergeAll(kv, extra), args)
               <==> Enters(sh, dir) && !Dash(args[0]) && Obliges(sh, MergeAll(kv, extra)))
  {
    var merged := ApplyExtraEnv(kv, extra);
    if merged.Err? {
      return Err(merged.error);
    }
    var exports := DotEnvExportScript(merged.value);
    ghost var order :| Enumerates(order, merged.value) && exports == RenderExports(order, merged.value);
    forall sh: Sh, base: Env
      ensures Delivers(sh, CommandScript(dir, exports, args), base, dir, merged.value, args)
              <==> Enters(sh, dir) && !Dash(args[0]) && Obliges(sh, merged.value)
    {
      ScriptRoundTrip(sh, base, dir, order, merged.value, args);
    }
    r := Ok(CommandScript(dir, exports, args));
  }

  // ---- DotEnvFileLines and the docker branch -------------------------------------------

  const TERMINATOR := "DISPATCHER_ENV_EOF"

  predicate OccursAt(s: string, t: string, i: nat) {
    i + |t| <= |s| && s[i..i + |t|] == t
  }

  predicate Contains(s: string, t: string) {
    exists i: nat :: i <= |s| && OccursAt(s, t, i)
  }

  lemma ContainsExactly(s: string, t: string)
    ensures Contains(s, t) <==> exists p, q :: s == p + t + q
  {
    if Contains(s, t) {
      var i: nat :| i <= |s| && OccursAt(s, t, i);
      assert s == s[..i] + t + s[i + |t|..];
    }
    if p, q :| s == p + t + q {
      assert OccursAt(s, t, |p|);
    }
  }

  predicate Acceptable(v: string) {
    '\n' !in v && !Contains(v, TERMINATOR)
  }

  function EnvLine(k: string, v: string): string {
    k + "=" + v
  }

  function RenderLines(order: seq<string>, kv: Env): string
    requires forall k :: k in order ==> k in kv
  {
    if order == [] then ""
    else RenderLines(order[..|order| - 1], kv) + EnvLine(order[|order| - 1], kv[order[|order| - 1]]) + "\n"
  }

  /** `keys` lists the keys of the map in ascending order; there is one such list. */
  ghost predicate SortedKeys(keys: seq<string>, kv: Env) {
    Enumerates(keys, kv) && KeyOrder.Ascending(keys)
  }

  lemma SortedKeysUnique(a: seq<string>, b: seq<string>, kv: Env)
    requires SortedKeys(a, kv) && SortedKeys(b, kv)
    ensures a == b
  {
    KeyOrder.AscendingUnique(a, b);
  }

  /** The lines in ascending order of their keys; on error, the least key whose value
      cannot be carried. */
  method DotEnvFileLines(kv: Env) returns (r: Result<string, string>)
    ensures r.Ok? <==> forall k :: k in kv ==> '\n' !in kv[k] && !Contains(kv[k], "DISPATCHER_ENV_EOF")
    ensures r.Ok? ==> exists keys :: SortedKeys(keys, kv) && r.value == RenderLines(keys, kv)
    ensures r.Err? ==> r.error in kv && !Acceptable(kv[r.error])
    ensures r.Err? ==> forall k :: k in kv && !Acceptable(kv[k]) && k != r.error ==> KeyOrder.Before(r.error, k)
  {
    var keys := KeyOrder.Sort(kv.Keys);
    forall i, j | 0 <= i < j < |keys| ensures keys[i] != keys[j] {
      KeyOrder.AscendingDistinct(keys, i, j);
    }
    assert SortedKeys(keys, kv);
    var b := "";
    for n := 0 to |keys|
      invariant b == RenderLines(keys[..n], kv)
      invariant forall i :: 0 <= i < n ==> Acceptable(kv[keys[i]])
    {
      var k := keys[n];
      if !Acceptable(kv[k]) {
        return Err(k);
      }
      LinesSnoc(keys, kv, n);
      b := b + EnvLine(k, kv[k]) + "\n";
    }
    assert keys[..|keys|] == keys;
    r := Ok(b);
  }

  lemma LinesSnoc(keys: seq<string>, kv: Env, n: nat)
    requires n < |keys| && forall k :: k in keys ==> k in kv
    ensures RenderLines(keys[..n + 1], kv) == RenderLines(keys[..n], kv) + EnvLine(keys[n], kv[keys[n]]) + "\n"
  {
    assert keys[..n + 1][..n] == keys[..n];
  }

  function DockerScript(quotedDir: string, quotedImage: string, lines: string): string {
    "cd " + quotedDir + "\n"
    + "docker build -t " + quotedImage + " .\n"
    + ("docker run --rm " + "--env-file /dev/stdin ") + quotedImage + " <<'DISPATCHER_ENV_EOF'\n"
    + lines
    + "DISPATCHER_ENV_EOF\n"
  }

  const BUILD_WORDS: seq<string> := ["docker", "build", "-t"]
  const RUN_WORDS: seq<string> := ["docker", "run", "--rm", "--env-file", "/dev/stdin"]

  ghost predicate OrdinaryWords(ws: seq<string>) {
    forall i :: 0 <= i < |ws| ==> OrdinaryWord(ws[i])
  }

  /** The same script with its typed words taken apart. */
  ghost function HereScript(dir: string, build: seq<string>, run: seq<string>, image: string, lines: string): string {
    ("cd " + ShellQuote(dir) + "\n")
    + (Typed(build) + ShellQuote(image) + " .\n")
    + (Typed(run) + ShellQuote(image) + " <<'DISPATCHER_ENV_EOF'\n")
    + lines + (TERMINATOR + "\n")
  }

  lemma TypedCons(w: string, ws: seq<string>)
    ensures Typed([w] + ws) == w + " " + Typed(ws)
  {
    assert ([w] + ws)[1..] == ws;
  }

  lemma BuildText()
    ensures Typed(BUILD_WORDS) == "docker build -t " && OrdinaryWords(BUILD_WORDS)
  {
    TypedCons("-t", []);
    TypedCons("build", ["-t"]);
    TypedCons("docker", ["build", "-t"]);
    assert ["build"] + ["-t"] == ["build", "-t"] && ["docker"] + ["build", "-t"] == BUILD_WORDS;
  }

  lemma EnvFileText()
    ensures Typed(["--env-file", "/dev/stdin"]) == "--env-file /dev/stdin "
  {
    TypedCons("/dev/stdin", []);
    TypedCons("--env-file", ["/dev/stdin"]);
    assert ["--env-file"] + ["/dev/stdin"] == ["--env-file", "/dev/stdin"];
  }

  lemma RunText()
    ensures Typed(RUN_WORDS) == "docker run --rm " + "--env-file /dev/stdin "
  {
    var tail := ["--env-file", "/dev/stdin"];
    EnvFileText();
    TypedThree("docker", "run", "--rm", tail);
    assert ["docker", "run", "--rm"] + tail == RUN_WORDS;
    assert "docker" + " " + "run" + " " + "--rm" + " " == "docker run --rm ";
  }

  lemma TypedThree(a: string, b: string, c: string, ws: seq<string>)
    ensures Typed([a, b, c] + ws) == a + " " + b + " " + c + " " + Typed(ws)
  {
    TypedCons(c, ws);
    TypedCons(b, [c] + ws);
    TypedCons(a, [b] + ([c] + ws));
    assert [a] + ([b] + ([c] + ws)) == [a, b, c] + ws;
  }

  lemma RunWordsAreOrdinary()
    ensures OrdinaryWords(RUN_WORDS)
  {
    assert OrdinaryWord("docker") && OrdinaryWord("run") && OrdinaryWord("--rm");
    assert OrdinaryWord("--env-file") && OrdinaryWord("/dev/stdin");
  }

  lemma DockerScriptShape(dir: string, image: string, lines: string)
    requires Typed(BUILD_WORDS) == "docker build -t "
    requires Typed(RUN_WORDS) == "docker run --rm " + "--env-file /dev/stdin "
    ensures DockerScript(ShellQuote(dir), ShellQuote(image), lines) ==
            HereScript(dir, BUILD_WORDS, RUN_WORDS, image, lines)
  {
    assert TERMINATOR + "\n" == "DISPATCHER_ENV_EOF\n";
    GroupLines("cd ", ShellQuote(dir), "\n", "docker build -t ", ShellQuote(image), " .\n",
               "docker run --rm " + "--env-file /dev/stdin ", " <<'DISPATCHER_ENV_EOF'\n", lines,
               "DISPATCHER_ENV_EOF\n");
  }

  lemma GroupLines(a: string, dir: string, b: string, c: string, image: string, d: string, e: string, f: string,
                   lines: string, g: string)
    ensures a + dir + b + c + image + d + e + image + f + lines + g ==
            (a + dir + b) + (c + image + d) + (e + image + f) + lines + g
  {
    GroupThree(a + dir + b, c, image, d);
    GroupThree(a + dir + b + (c + image + d), e, image, f);
  }

  lemma GroupThree(p: string, a: string, b: string, c: string)
    ensures p + a + b + c == p + (a + b + c)
  {
  }

  /** In the body of a here-document, lines other than the delimiter are kept as they are. */
  lemma {:induction false} RunHereChars(l: Lexer, s: string)
    requires l.Lexer? && l.mode.Here? && l.redirect.Delimiter? && '\n' !in s
    ensures Run(l, s) == l.(mode := Here(l.mode.line + s))
    decreases |s|
  {
    if s == "" {
      assert l.mode.line + s == l.mode.line;
    } else {
      RunHereChars(Step(l, s[0]), s[1..]);
      assert l.mode.line + [s[0]] + s[1..] == l.mode.line + s;
    }
  }

  ghost predicate InBody(l: Lexer) {
    l.Lexer? && l.mode == Here("") && l.redirect.Delimiter? && l.redirect.token == TERMINATOR
  }

  lemma RunHereLine(l: Lexer, line: string)
    requires InBody(l) && '\n' !in line
    ensures Run(l, line + "\n") ==
            if line == TERMINATOR
            then Lexer(Plain, None, [], NoRedirect, l.done + [Command(l.words, Some(l.redirect.body))])
            else l.(redirect := Delimiter(TERMINATOR, l.redirect.body + line + "\n"))
  {
    RunHereChars(l, line);
    RunSnoc(l, line, '\n');
    assert "" + line == line;
  }

  lemma EnvLineIsNotTerminator(k: string, v: string)
    ensures EnvLine(k, v) != TERMINATOR
  {
    assert EnvLine(k, v)[|k|] == '=';
    assert '=' !in TERMINATOR;
  }

  lemma {:induction false} RunHereLines(l: Lexer, order: seq<string>, kv: Env)
    requires InBody(l)
    requires forall k :: k in order ==> k in kv && ValidKey(k) && '\n' !in kv[k]
    ensures Run(l, RenderLines(order, kv)) ==
            l.(redirect := Delimiter(TERMINATOR, l.redirect.body + RenderLines(order, kv)))
  {
    if order == [] {
      assert l.redirect.body + "" == l.redirect.body;
    } else {
      var init, k := order[..|order| - 1], order[|order| - 1];
      var before, line := RenderLines(init, kv), EnvLine(k, kv[k]);
      RunHereLines(l, init, kv);
      RunConcat(l, before, line + "\n");
      EnvLineIsNotTerminator(k, kv[k]);
      RunHereLine(Run(l, before), line);
      assert before + (line + "\n") == RenderLines(order, kv);
      assert l.redirect.body + before + line + "\n" == l.redirect.body + RenderLines(order, kv);
    }
  }

  /** Typed words and one quoted word, with more to come on the line. */
  lemma RunUpToQuoted(l: Lexer, typed: seq<string>, q: string)
    requires AtLineStart(l) && OrdinaryWords(typed)
    ensures Run(l, Typed(typed) + ShellQuote(q)) == l.(words := typed, word := Some(q))
  {
    RunTyped(l, typed);
    RunConcat(l, Typed(typed), ShellQuote(q));
    RunQuoted(l.(words := typed), q);
    assert [] + typed == typed && "" + q == q;
  }

  lemma RunDotLine(l: Lexer)
    requires l.Lexer? && l.mode.Plain? && l.word.Some? && l.redirect.NoRedirect?
    ensures Run(l, " .\n") == l.(word := None, words := [],
                                 done := l.done + [Command(l.words + [l.word.value, "."], None)])
  {
    RunSnoc(l, "", ' ');
    RunSnoc(l, " ", '.');
    RunConcat(l, " .", "\n");
    assert "" + [' '] == " " && " " + ['.'] == " ." && " ." + "\n" == " .\n" && "" + ['.'] == ".";
    RunNewline(Run(l, " ."));
    assert l.words + [l.word.value] + ["."] == l.words + [l.word.value, "."];
  }

  lemma RunBuild(l: Lexer, typed: seq<string>, image: string)
    requires AtLineStart(l) && OrdinaryWords(typed)
    ensures Run(l, Typed(typed) + ShellQuote(image) + " .\n") ==
            l.(done := l.done + [Command(typed + [image, "."], None)])
  {
    RunUpToQuoted(l, typed, image);
    var l1 := l.(words := typed, word := Some(image));
    RunDotLine(l1);
    Then(l, Typed(typed) + ShellQuote(image), l1, " .\n", l.(done := l.done + [Command(typed + [image, "."], None)]));
  }

  lemma RunBlankLessLess(l: Lexer)
    requires l.Lexer? && l.mode.Plain? && l.word.Some? && l.redirect.NoRedirect?
    ensures Run(l, " <<") == l.(word := None, words := l.words + [l.word.value], redirect := AwaitDelimiter(false))
  {
    RunSnoc(l, "", ' ');
    RunSnoc(l, " ", '<');
    RunSnoc(l, " <", '<');
    assert "" + [' '] == " " && " " + ['<'] == " <" && " <" + ['<'] == " <<";
  }

  lemma RunQuotedDelimiter(l: Lexer, token: string)
    requires l.Lexer? && l.mode.Plain? && l.word.None? && l.redirect.AwaitDelimiter? && '\'' !in token
    ensures Run(l, "'" + token + "'\n") == l.(mode := Here(""), redirect := Delimiter(token, ""))
  {
    RunSnoc(l, "", '\'');
    assert "" + ['\''] == "'";
    var open := Run(l, "'");
    RunConcat(l, "'", token);
    RunSingleChars(open, token);
    assert "" + token == token;
    RunSnoc(l, "'" + token, '\'');
    RunSnoc(l, "'" + token + "'", '\n');
    assert "'" + token + "'" + ['\n'] == "'" + token + "'\n";
  }

  /** ` <<'DISPATCHER_ENV_EOF'` and the end of that line open the here-document. */
  lemma RunOpenHere(l: Lexer)
    requires l.Lexer? && l.mode.Plain? && l.word.Some? && l.redirect.NoRedirect?
    ensures Run(l, " <<'DISPATCHER_ENV_EOF'\n") ==
            l.(mode := Here(""), word := None, words := l.words + [l.word.value], redirect := Delimiter(TERMINATOR, ""))
  {
    var l1 := l.(word := None, words := l.words + [l.word.value], redirect := AwaitDelimiter(false));
    RunBlankLessLess(l);
    RunQuotedDelimiter(l1, TERMINATOR);
    Then(l, " <<", l1, "'" + TERMINATOR + "'\n", l1.(mode := Here(""), redirect := Delimiter(TERMINATOR, "")));
    OpenHereText();
  }

  lemma OpenHereText()
    ensures " <<" + ("'" + TERMINATOR + "'\n") == " <<'DISPATCHER_ENV_EOF'\n"
  {
    assert "'" + TERMINATOR == "'DISPATCHER_ENV_EOF";
    assert "'DISPATCHER_ENV_EOF" + "'\n" == "'DISPATCHER_ENV_EOF'\n";
    assert " <<" + "'DISPATCHER_ENV_EOF'\n" == " <<'DISPATCHER_ENV_EOF'\n";
  }

  lemma RunRun(l: Lexer, typed: seq<string>, image: string)
    requires AtLineStart(l) && OrdinaryWords(typed)
    ensures Run(l, Typed(typed) + ShellQuote(image) + " <<'DISPATCHER_ENV_EOF'\n") ==
            l.(mode := Here(""), words := typed + [image], redirect := Delimiter(TERMINATOR, ""))
  {
    RunUpToQuoted(l, typed, image);
    var l1 := l.(words := typed, word := Some(image));
    RunOpenHere(l1);
    Then(l, Typed(typed) + ShellQuote(image), l1, " <<'DISPATCHER_ENV_EOF'\n",
         l.(mode := Here(""), words := typed + [image], redirect := Delimiter(TERMINATOR, "")));
  }

  lemma {:induction false} RunSingleChars(l: Lexer, s: string)
    requires l.Lexer? && l.mode.Single? && l.word.Some? && '\'' !in s
    ensures Run(l, s) == l.(word := Some(l.word.value + s))
    decreases |s|
  {
    if s == "" {
      assert l.word.value + s == l.word.value;
    } else {
      RunSingleChars(Step(l, s[0]), s[1..]);
      assert l.word.value + [s[0]] + s[1..] == l.word.value + s;
    }
  }

  function DockerCommands(dir: string, image: string, lines: string): seq<Command> {
    [Command(["cd", dir], None),
     Command(BUILD_WORDS + [image, "."], None),
     Command(RUN_WORDS + [image], Some(lines))]
  }

  /** The three commands, word by word. */
  lemma DockerCommandsAre(dir: string, image: string, lines: string)
    ensures DockerCommands(dir, image, lines) ==
            [Command(["cd", dir], None),
             Command(["docker", "build", "-t", image, "."], None),
             Command(["docker", "run", "--rm", "--env-file", "/dev/stdin", image], Some(lines))]
  {
    assert BUILD_WORDS + [image, "."] == ["docker", "build", "-t", image, "."];
    assert RUN_WORDS + [image] == ["docker", "run", "--rm", "--env-file", "/dev/stdin", image];
  }

  lemma RunDockerLines(dir: string, build: seq<string>, run: seq<string>, image: string)
    requires OrdinaryWords(build) && OrdinaryWords(run)
    ensures Run(START, ("cd " + ShellQuote(dir) + "\n") + (Typed(build) + ShellQuote(image) + " .\n")
                       + (Typed(run) + ShellQuote(image) + " <<'DISPATCHER_ENV_EOF'\n")) ==
            Lexer(Here(""), None, run + [image], Delimiter(TERMINATOR, ""),
                  [Command(["cd", dir], None), Command(build + [image, "."], None)])
  {
    var a := "cd " + ShellQuote(dir) + "\n";
    var b := Typed(build) + ShellQuote(image) + " .\n";
    var c := Typed(run) + ShellQuote(image) + " <<'DISPATCHER_ENV_EOF'\n";
    var c0, c1 := Command(["cd", dir], None), Command(build + [image, "."], None);
    var l1 := START.(done := [c0]);
    var l2 := START.(done := [c0] + [c1]);
    RunCd(dir);
    RunBuild(l1, build, image);
    Then(START, a, l1, b, l2);
    RunRun(l2, run, image);
    Then(START, a + b, l2, c, l2.(mode := Here(""), words := run + [image], redirect := Delimiter(TERMINATOR, "")));
  }

  /** From the first line of the body to the end of the script. */
  lemma RunBodyAndClose(l: Lexer, order: seq<string>, kv: Env)
    requires InBody(l) && l.redirect.body == "" && l.word.None?
    requires forall k :: k in order ==> k in kv && ValidKey(k) && '\n' !in kv[k]
    ensures Run(l, RenderLines(order, kv) + (TERMINATOR + "\n")) ==
            Lexer(Plain, None, [], NoRedirect, l.done + [Command(l.words, Some(RenderLines(order, kv)))])
  {
    var lines := RenderLines(order, kv);
    var l1 := l.(redirect := Delimiter(TERMINATOR, lines));
    RunHereLines(l, order, kv);
    assert "" + lines == lines;
    RunHereLine(l1, TERMINATOR);
    Then(l, lines, l1, TERMINATOR + "\n", Lexer(Plain, None, [], NoRedirect, l.done + [Command(l.words, Some(lines))]));
  }

  lemma HereScriptParses(dir: string, build: seq<string>, run: seq<string>, image: string, order: seq<string>, kv: Env)
    requires OrdinaryWords(build) && OrdinaryWords(run)
    requires forall k :: k in order ==> k in kv && ValidKey(k) && '\n' !in kv[k]
    ensures Run(START, HereScript(dir, build, run, image, RenderLines(order, kv))) ==
            START.(done := [Command(["cd", dir], None), Command(build + [image, "."], None),
                            Command(run + [image], Some(RenderLines(order, kv)))])
  {
    var head := ("cd " + ShellQuote(dir) + "\n") + (Typed(build) + ShellQuote(image) + " .\n")
                + (Typed(run) + ShellQuote(image) + " <<'DISPATCHER_ENV_EOF'\n");
    var c := [Command(["cd", dir], None), Command(build + [image, "."], None)];
    var l := Lexer(Here(""), None, run + [image], Delimiter(TERMINATOR, ""), c);
    RunDockerLines(dir, build, run, image);
    RunBodyAndClose(l, order, kv);
    var tail := RenderLines(order, kv) + (TERMINATOR + "\n");
    Then(START, head, l, tail, START.(done := c + [Command(run + [image], Some(RenderLines(order, kv)))]));
    assert head + tail == HereScript(dir, build, run, image, RenderLines(order, kv));
  }

  /** Here-document round trip: the remote shell feeds `docker run` exactly the rendered
      lines, with no expansion and no early end. */
  lemma HereDocumentRoundTrip(dir: string, image: string, order: seq<string>, kv: Env)
    requires forall k :: k in order ==> k in kv && ValidKey(k) && '\n' !in kv[k]
    ensures Parse(DockerScript(ShellQuote(dir), ShellQuote(image), RenderLines(order, kv))) ==
            Some(DockerCommands(dir, image, RenderLines(order, kv)))
  {
    BuildText();
    RunText();
    RunWordsAreOrdinary();
    HereScriptParses(dir, BUILD_WORDS, RUN_WORDS, image, order, kv);
    DockerScriptShape(dir, image, RenderLines(order, kv));
  }

  /** An env-file reader: one variable per newline-terminated line, cut at the first '='. */
  function ReadEnvFile(s: string): Env {
    ReadLine("", s)
  }

  function ReadLine(line: string, s: string): Env
    decreases |s|
  {
    if s == "" then map[]
    else if s[0] != '\n' then ReadLine(line + [s[0]], s[1..])
    else
      var n := FirstEquals(line);
      (if n < |line| then map[line[..n] := line[n + 1..]] else map[]) + ReadLine("", s[1..])
  }

  lemma {:induction false} ReadLineText(line: string, text: string, rest: string)
    requires '\n' !in text
    ensures ReadLine(line, text + "\n" + rest) == ReadLine(line + text, "\n" + rest)
    decreases |text|
  {
    if text == "" {
      assert text + "\n" + rest == "\n" + rest && line + text == line;
    } else {
      assert (text + "\n" + rest)[1..] == text[1..] + "\n" + rest;
      ReadLineText(line + [text[0]], text[1..], rest);
      assert line + [text[0]] + text[1..] == line + text;
    }
  }

  /** No value an env file can carry contains a newline. */
  lemma {:induction false} ReadHasNoNewlines(line: string, s: string, k: string)
    requires '\n' !in line && k in ReadLine(line, s)
    ensures '\n' !in ReadLine(line, s)[k]
    decreases |s|
  {
    if s != "" {
      if s[0] != '\n' {
        ReadHasNoNewlines(line + [s[0]], s[1..], k);
      } else if k in ReadLine("", s[1..]) {
        ReadHasNoNewlines("", s[1..], k);
      }
    }
  }

  lemma ReadOneBack(k: string, v: string, rest: string)
    requires ValidKey(k) && '\n' !in v
    ensures ReadEnvFile(EnvLine(k, v) + "\n" + rest) == map[k := v] + ReadEnvFile(rest)
  {
    var line := EnvLine(k, v);
    ReadLineText("", line, rest);
    assert "" + line == line && ("\n" + rest)[1..] == rest;
    FirstEqualsOfPair(k, v);
  }

  lemma {:induction false} ReadLinesBack(order: seq<string>, kv: Env, rest: string)
    requires forall k :: k in order ==> k in kv && ValidKey(k) && '\n' !in kv[k]
    ensures ReadEnvFile(RenderLines(order, kv) + rest) == AddAll(map[], order, kv) + ReadEnvFile(rest)
    decreases |order|
  {
    if order == [] {
      assert "" + rest == rest;
    } else {
      var init, k := order[..|order| - 1], order[|order| - 1];
      var line := EnvLine(k, kv[k]);
      var tail := line + "\n" + rest;
      assert RenderLines(order, kv) + rest == RenderLines(init, kv) + tail;
      ReadLinesBack(init, kv, tail);
      ReadOneBack(k, kv[k], rest);
      var before := AddAll(map[], init, kv);
      assert before + (map[k := kv[k]] + ReadEnvFile(rest)) == before[k := kv[k]] + ReadEnvFile(rest);
    }
  }

  /** Reading the rendered lines back gives the map exactly when no value contains a
      newline; the terminator token needs no check. */
  lemma EnvFileRoundTrip(order: seq<string>, kv: Env)
    requires ValidKeys(kv) && Enumerates(order, kv)
    ensures ReadEnvFile(RenderLines(order, kv)) == kv <==> forall k :: k in kv ==> '\n' !in kv[k]
  {
    if forall k :: k in kv ==> '\n' !in kv[k] {
      ReadLinesBack(order, kv, "");
      assert RenderLines(order, kv) + "" == RenderLines(order, kv);
      AddAllIsUnion(map[], order, kv);
      assert map[] + kv + map[] == kv;
    } else {
      var k :| k in kv && '\n' in kv[k];
      if k in ReadEnvFile(RenderLines(order, kv)) {
        ReadHasNoNewlines("", RenderLines(order, kv), k);
      }
    }
  }

  /** The script runs the three docker commands on `lines`, which read back as `kv`. */
  ghost predicate Carries(script: string, dir: string, image: string, lines: string, kv: Env) {
    Parse(script) == Some(DockerCommands(dir, image, lines)) && ReadEnvFile(lines) == kv
  }

  /** The whole docker branch: the container reads back exactly the merged map. */
  method SshDockerScript(dir: string, image: string, kv: Env, extra: seq<Env>) returns (r: Result<string, string>)
    requires ValidKeys(kv)
    ensures r.Ok? <==> (forall i :: 0 <= i < |extra| ==> ValidKeys(extra[i]))
                       && forall k :: k in MergeAll(kv, extra) ==> Acceptable(MergeAll(kv, extra)[k])
    ensures r.Ok? ==> exists lines :: Carries(r.value, dir, image, lines, MergeAll(kv, extra))
  {
    var merged := ApplyExtraEnv(kv, extra);
    if merged.Err? {
      return Err(merged.error);
    }
    var lines := DotEnvFileLines(merged.value);
    if lines.Err? {
      return lines;
    }
    ghost var keys :| SortedKeys(keys, merged.value) && lines.value == RenderLines(keys, merged.value);
    HereDocumentRoundTrip(dir, image, keys, merged.value);
    EnvFileRoundTrip(keys, merged.value);
    r := Ok(DockerScript(ShellQuote(dir), ShellQuote(image), lines.value));
    assert Carries(r.value, dir, image, lines.value, merged.value);
  }
}
