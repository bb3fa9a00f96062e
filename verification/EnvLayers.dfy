/**
  The environment a PHP thread shows to its scripts (frankenphp.c): putenv() overrides over the entries
  prepared for the request, over those prepared when the worker script booted, over the environment of
  the main thread. A table that does not exist is None; an override of None unsets the name.
 */
module EnvLayers {
  import opened Options

  type Table = map<string, string>

  datatype Layers = Layers(
    sandbox: Option<map<string, Option<string>>>,
    prepared: Option<Table>,
    worker: Option<Table>,
    main: Table)

  /** The layers of a thread that runs no script. */
  function Bare(main: Table): Layers {
    Layers(None, None, None, main)
  }

  /* ---------- putenv ---------- */

  datatype Setting = Invalid | Assign(name: string, value: Option<string>)

  /** The index of the first c in s, or the length of s. */
  function IndexOf(s: string, c: char): (i: nat)
    ensures i <= |s| && c !in s[..i] && (i < |s| ==> s[i] == c)
  {
    if s == [] || s[0] == c then 0 else
    var i := IndexOf(s[1..], c);
    assert s[..i + 1] == [s[0]] + s[1..][..i];
    i + 1
  }

  function Parse(setting: string): Setting {
    if setting == [] || setting[0] == '=' then Invalid else
    var cut := setting[..IndexOf(setting, '\0')];
    var eq := IndexOf(cut, '=');
    if eq == |cut| then Assign(cut, None) else Assign(cut[..eq], Some(cut[eq + 1..]))
  }

  lemma FirstIndex(a: string, c: char, b: string)
    requires c !in a
    ensures IndexOf(a, c) == |a| && IndexOf(a + [c] + b, c) == |a|
  {
    var s := a + [c] + b;
    var i := IndexOf(s, c);
    assert forall k | 0 <= k < |a| :: s[k] == a[k];
    assert s[|a|] == c;
    assert forall k | 0 <= k < i :: s[k] in s[..i];
  }

  /** putenv("NAME=value") assigns that value to that name, whatever '=' the value holds. */
  lemma ParsesAssignment(name: string, value: string)
    requires name != [] && '=' !in name && '\0' !in name && '\0' !in value
    ensures Parse(name + "=" + value) == Assign(name, Some(value))
  {
    var s := name + "=" + value;
    FirstIndex(s, '\0', []);
    FirstIndex(name, '=', value);
    assert s[..|s|] == s && s[..|name|] == name && s[|name| + 1..] == value;
  }

  /** The value ends where a NUL byte comes. */
  lemma ParsesUpToNul(name: string, value: string, rest: string)
    requires name != [] && '=' !in name && '\0' !in name && '\0' !in value
    ensures Parse(name + "=" + value + "\0" + rest) == Assign(name, Some(value))
  {
    var s := name + "=" + value;
    FirstIndex(s, '\0', rest);
    FirstIndex(name, '=', value);
    var all := s + "\0" + rest;
    assert all[..|s|] == s && s[..|name|] == name && s[|name| + 1..] == value;
    assert all[0] == name[0] && name[0] in name;
  }

  /** A name alone is unset; what comes after a NUL byte is not looked at. */
  lemma ParsesRemoval(name: string, rest: string)
    requires '=' !in name && '\0' !in name
    ensures name != [] ==> Parse(name) == Assign(name, None)
    ensures Parse(name + "\0" + rest) == Assign(name, None)
  {
    FirstIndex(name, '\0', rest);
    FirstIndex(name, '=', []);
    assert name[..|name|] == name && (name + "\0" + rest)[..|name|] == name;
  }

  /* ---------- the operations ---------- */

  datatype Op =
    | Putenv(setting: string)
    | Prepare(name: string, value: string)   // frankenphp_add_to_prepared_env, before any code of the request runs
    | Handover                               // the worker script reached frankenphp_handle_request for the first time
    | RequestEnd                             // frankenphp_worker_request_shutdown
    | Reset                                  // reset_sandboxed_environment, when the script ended
    | DropSandbox                            // after php_request_shutdown, whose shutdown functions may call putenv

  function OrEmpty<V>(table: Option<map<string, V>>): map<string, V> {
    if table.Some? then table.value else map[]
  }

  function Apply(l: Layers, op: Op): Layers {
    match op
    case Putenv(setting) =>
      (match Parse(setting)
       case Invalid => l
       case Assign(name, value) => l.(sandbox := Some(OrEmpty(l.sandbox)[name := value])))
    case Prepare(name, value) => l.(prepared := Some(OrEmpty(l.prepared)[name := value]))
    case Handover => l.(worker := l.prepared, prepared := None)
    case RequestEnd => l.(prepared := None)
    case Reset => Bare(l.main)
    case DropSandbox => l.(sandbox := None)
  }

  function ApplyAll(l: Layers, ops: seq<Op>): Layers
    decreases |ops|
  {
    if ops == [] then l else ApplyAll(Apply(l, ops[0]), ops[1..])
  }

  /* ---------- reading ---------- */

  /** frankenphp_lookup_env: Some(None) is a name unset by putenv. */
  function Lookup(l: Layers, name: string): Option<Option<string>> {
    if l.sandbox.Some? && name in l.sandbox.value then Some(l.sandbox.value[name])
    else if l.prepared.Some? && name in l.prepared.value then Some(Some(l.prepared.value[name]))
    else if l.worker.Some? && name in l.worker.value then Some(Some(l.worker.value[name]))
    else if name in l.main then Some(Some(l.main[name]))
    else None
  }

  /** getenv(name): None is PHP's false. */
  function Get(l: Layers, name: string): Option<string> {
    match Lookup(l, name)
    case Some(Some(value)) => Some(value)
    case _ => None
  }

  function InTable(table: Table, name: string): Option<string> {
    if name in table then Some(table[name]) else None
  }

  /** What a merged table must be: for every name exactly what a single-name lookup gives. */
  ghost predicate Agrees(table: Table, l: Layers) {
    forall name :: InTable(table, name) == Get(l, name)
  }

  /** The layers of one thread, changed in place. */
  class Env {
    var sandbox: Option<map<string, Option<string>>>
    var prepared: Option<Table>
    var worker: Option<Table>
    const main: Table

    ghost function View(): Layers
      reads this
    {
      Layers(sandbox, prepared, worker, main)
    }

    constructor (main: Table)
      ensures View() == Bare(main)
    {
      sandbox, prepared, worker := None, None, None;
      this.main := main;
    }

    method PutEnv(setting: string) returns (ok: bool)
      modifies this
      ensures View() == Apply(old(View()), Putenv(setting))
      ensures ok <==> setting != [] && setting[0] != '='
    {
      if |setting| == 0 || setting[0] == '=' {
        return false;
      }
      if sandbox == None {
        sandbox := Some(map[]);
      }
      var s := setting[..IndexOf(setting, '\0')];
      var eq := IndexOf(s, '=');
      if eq == |s| {
        sandbox := Some(sandbox.value[s := None]);
        return true;
      }
      var valueLength := if |s| > eq + 1 then |s| - eq - 1 else 0;
      sandbox := Some(sandbox.value[s[..eq] := Some(s[eq + 1..][..valueLength])]);
      assert s[eq + 1..][..valueLength] == s[eq + 1..];
      return true;
    }

    method AddToPreparedEnv(name: string, value: string)
      modifies this
      ensures View() == Apply(old(View()), Prepare(name, value))
    {
      if prepared == None {
        prepared := Some(map[]);
      }
      prepared := Some(prepared.value[name := value]);
    }

    method WorkerRequestShutdown()
      modifies this
      ensures View() == Apply(old(View()), RequestEnd)
    {
      if prepared != None {
        prepared := None;
      }
    }

    method ShutdownDummyRequest()
      modifies this
      ensures View() == Apply(old(View()), Handover)
    {
      worker := prepared;
      prepared := None;
      WorkerRequestShutdown();
    }

    /** The end of a script: what its shutdown functions put last is dropped as well. */
    method EndScript(puts: seq<string>)
      modifies this
      ensures View() == Bare(old(View()).main)
    {
      sandbox, prepared, worker := None, None, None;
      for k := 0 to |puts|
        invariant prepared == None && worker == None
      {
        var _ := PutEnv(puts[k]);
      }
      sandbox := None;
    }

    /** Looks through the layers in order, the first that holds the name wins. */
    method GetEnv(name: string) returns (value: Option<string>)
      ensures value == Get(View(), name)
    {
      if sandbox.Some? && name in sandbox.value {
        return sandbox.value[name];
      }
      var layers := [prepared, worker, Some(main)];
      assert layers[0] == prepared && layers[1] == worker && layers[2] == Some(main);
      for k := 0 to |layers|
        invariant forall j | 0 <= j < k :: layers[j] == None || name !in layers[j].value
      {
        if layers[k].Some? && name in layers[k].value {
          return Some(layers[k].value[name]);
        }
      }
      return None;
    }

    /** Copies the main environment, then the worker's, then the request's, and replays the overrides in
        whatever order the sandbox holds them. The merged table agrees with every single-name lookup. */
    method DupEnv() returns (env: Table)
      ensures Agrees(env, View())
    {
      env := main;
      if worker.Some? {
        env := env + worker.value;
      }
      if prepared.Some? {
        env := env + prepared.value;
      }
      ghost var under := View().(sandbox := None);
      assert Agrees(env, under);
      if sandbox.Some? {
        env := Replay(env, sandbox.value);
      }
      forall name ensures InTable(env, name) == Get(View(), name) {
        assert InTable(main, name) == Get(Bare(main), name);
        var _ := Get(under, name);
      }
    }
  }

  /** Replays the overrides on a table, in any order. */
  method Replay(table: Table, overrides: map<string, Option<string>>) returns (env: Table)
    ensures forall name :: InTable(env, name) == if name in overrides then overrides[name] else InTable(table, name)
  {
    env := table;
    var todo := overrides.Keys;
    while todo != {}
      invariant todo <= overrides.Keys
      invariant forall name :: InTable(env, name) ==
                               if name in overrides && name !in todo then overrides[name] else InTable(table, name)
      decreases |todo|
    {
      var name :| name in todo;
      if overrides[name] == None {
        env := env - {name};
      } else {
        env := env[name := overrides[name].value];
      }
      todo := todo - {name};
    }
  }

  /* ---------- whole histories ---------- */

  /** The value the history puts on a name for the running script: the last putenv after the last Reset
      or DropSandbox. */
  function LastPut(ops: seq<Op>, name: string): Option<Option<string>>
    decreases |ops|
  {
    if ops == [] then None else
    var n := |ops| - 1;
    match ops[n]
    case Putenv(setting) =>
      var parsed := Parse(setting);
      if parsed.Assign? && parsed.name == name then Some(parsed.value) else LastPut(ops[..n], name)
    case Reset => None
    case DropSandbox => None
    case _ => LastPut(ops[..n], name)
  }

  /** The value prepared for the current request: the last one since the last boundary. */
  function LastPrepared(ops: seq<Op>, name: string): Option<string>
    decreases |ops|
  {
    if ops == [] then None else
    var n := |ops| - 1;
    match ops[n]
    case Prepare(k, value) => if k == name then Some(value) else LastPrepared(ops[..n], name)
    case Putenv(_) => LastPrepared(ops[..n], name)
    case DropSandbox => LastPrepared(ops[..n], name)
    case _ => None
  }

  /** The value prepared for the boot of the running worker script: what was prepared when the last
      handover took place, if no script ended since. */
  function BootPrepared(ops: seq<Op>, name: string): Option<string>
    decreases |ops|
  {
    if ops == [] then None else
    var n := |ops| - 1;
    match ops[n]
    case Handover => LastPrepared(ops[..n], name)
    case Reset => None
    case _ => BootPrepared(ops[..n], name)
  }

  /** What getenv must answer after a history, said without any table. */
  function Visible(main: Table, ops: seq<Op>, name: string): Option<string> {
    if LastPut(ops, name).Some? then LastPut(ops, name).value
    else if LastPrepared(ops, name).Some? then LastPrepared(ops, name)
    else if BootPrepared(ops, name).Some? then BootPrepared(ops, name)
    else InTable(main, name)
  }

  lemma {:induction false} ApplyLast(l: Layers, ops: seq<Op>)
    requires ops != []
    ensures ApplyAll(l, ops) == Apply(ApplyAll(l, ops[..|ops| - 1]), ops[|ops| - 1])
    decreases |ops|
  {
    var n := |ops| - 1;
    if n > 0 {
      ApplyLast(Apply(l, ops[0]), ops[1..]);
      assert ops[1..][..n - 1] == ops[..n][1..];
    }
  }

  ghost predicate Describes(l: Layers, ops: seq<Op>, name: string) {
    && LastPut(ops, name) == (if name in OrEmpty(l.sandbox) then Some(OrEmpty(l.sandbox)[name]) else None)
    && LastPrepared(ops, name) == InTable(OrEmpty(l.prepared), name)
    && BootPrepared(ops, name) == InTable(OrEmpty(l.worker), name)
  }

  lemma DescribesNext(l: Layers, ops: seq<Op>, op: Op, name: string)
    requires Describes(l, ops, name)
    ensures Describes(Apply(l, op), ops + [op], name)
  {
    assert (ops + [op])[..|ops|] == ops;
    match op
    case Putenv(setting) =>
    case Prepare(k, value) =>
    case Handover =>
    case RequestEnd =>
    case Reset =>
    case DropSandbox =>
  }

  lemma {:induction false} LayersDescribeHistory(main: Table, ops: seq<Op>, name: string)
    ensures Describes(ApplyAll(Bare(main), ops), ops, name) && ApplyAll(Bare(main), ops).main == main
    decreases |ops|
  {
    if ops != [] {
      var n := |ops| - 1;
      LayersDescribeHistory(main, ops[..n], name);
      ApplyLast(Bare(main), ops);
      DescribesNext(ApplyAll(Bare(main), ops[..n]), ops[..n], ops[n], name);
      assert ops[..n] + [ops[n]] == ops;
    }
  }

  /** After every history, single-name getenv answers what the history says, name by name: the last putenv
      of the running script, else what was prepared for the current request, else for the worker's boot,
      else the main environment. */
  lemma GetenvFollowsHistory(main: Table, ops: seq<Op>, name: string)
    ensures Get(ApplyAll(Bare(main), ops), name) == Visible(main, ops, name)
  {
    LayersDescribeHistory(main, ops, name);
  }

  /* ---------- nothing prepared survives its request ---------- */

  /** The operations while one request runs. */
  ghost predicate InRequest(ops: seq<Op>) {
    forall k | 0 <= k < |ops| :: ops[k].Prepare? || ops[k].Putenv?
  }

  /** The operations without the prepared entries. */
  function Unprepared(ops: seq<Op>): seq<Op>
    decreases |ops|
  {
    if ops == [] then [] else
    (if ops[0].Prepare? then [] else [ops[0]]) + Unprepared(ops[1..])
  }

  lemma {:induction false} ApplyConcat(l: Layers, a: seq<Op>, b: seq<Op>)
    ensures ApplyAll(l, a + b) == ApplyAll(ApplyAll(l, a), b)
    decreases |a|
  {
    if a == [] {
      assert a + b == b;
    } else {
      ApplyConcat(Apply(l, a[0]), a[1..], b);
      assert (a + b)[1..] == a[1..] + b;
    }
  }

  /** Prepared entries touch the prepared layer and nothing else. */
  lemma {:induction false} PreparedStaysInItsLayer(l: Layers, l': Layers, request: seq<Op>)
    requires InRequest(request) && l'.(prepared := None) == l.(prepared := None)
    ensures ApplyAll(l', Unprepared(request)).(prepared := None) == ApplyAll(l, request).(prepared := None)
    decreases |request|
  {
    if request != [] {
      var rest := Unprepared(request[1..]);
      if request[0].Prepare? {
        assert Unprepared(request) == rest;
        PreparedStaysInItsLayer(Apply(l, request[0]), l', request[1..]);
      } else {
        assert Unprepared(request) == [request[0]] + rest;
        assert ([request[0]] + rest)[1..] == rest;
        PreparedStaysInItsLayer(Apply(l, request[0]), Apply(l', request[0]), request[1..]);
      }
    }
  }

  /** In every history, taking away all that was prepared for a finished request changes nothing of what
      comes after it. */
  lemma FinishedRequestLeavesNoPreparedEntry(main: Table, before: seq<Op>, request: seq<Op>, after: seq<Op>)
    requires InRequest(request)
    ensures ApplyAll(Bare(main), before + request + [RequestEnd] + after)
         == ApplyAll(Bare(main), before + Unprepared(request) + [RequestEnd] + after)
  {
    var l := ApplyAll(Bare(main), before);
    PreparedStaysInItsLayer(l, l, request);
    ThroughEnd(main, before, request, after);
    ThroughEnd(main, before, Unprepared(request), after);
  }

  lemma ThroughEnd(main: Table, before: seq<Op>, request: seq<Op>, after: seq<Op>)
    ensures ApplyAll(Bare(main), before + request + [RequestEnd] + after)
         == ApplyAll(ApplyAll(ApplyAll(Bare(main), before), request).(prepared := None), after)
  {
    var m := ApplyAll(ApplyAll(Bare(main), before), request);
    ApplyConcat(Bare(main), before + request + [RequestEnd], after);
    ApplyConcat(Bare(main), before + request, [RequestEnd]);
    ApplyConcat(Bare(main), before, request);
    assert ApplyAll(m, [RequestEnd]) == Apply(m, RequestEnd);
  }

  /** A whole script, with whatever its shutdown functions put after the reset, leaves a bare thread. */
  lemma {:induction false} ScriptLeavesNothing(main: Table, script: seq<Op>, puts: seq<Op>)
    requires forall k | 0 <= k < |puts| :: puts[k].Putenv?
    ensures ApplyAll(Bare(main), script + [Reset] + puts + [DropSandbox]) == Bare(main)
  {
    LayersDescribeHistory(main, script, "");
    var l := ApplyAll(Bare(main), script);
    ApplyConcat(Bare(main), script + [Reset] + puts, [DropSandbox]);
    ApplyConcat(Bare(main), script + [Reset], puts);
    ApplyConcat(Bare(main), script, [Reset]);
    assert ApplyAll(l, [Reset]) == Bare(main);
    PutsStayInSandbox(Bare(main), puts);
    var m := ApplyAll(Bare(main), puts);
    assert ApplyAll(m, [DropSandbox]) == Apply(m, DropSandbox);
  }

  lemma {:induction false} PutsStayInSandbox(l: Layers, puts: seq<Op>)
    requires forall k | 0 <= k < |puts| :: puts[k].Putenv?
    ensures ApplyAll(l, puts).(sandbox := l.sandbox) == l
    decreases |puts|
  {
    if puts != [] {
      PutsStayInSandbox(Apply(l, puts[0]), puts[1..]);
    }
  }

  /* ---------- when what a request put reaches a later one ---------- */

  /** The override table was dropped: a script ended. */
  predicate EndsScript(ops: seq<Op>) {
    exists k | 0 <= k < |ops| :: ops[k].Reset? || ops[k].DropSandbox?
  }

  lemma EndsScriptLast(b: seq<Op>)
    requires b != []
    ensures var n := |b| - 1; EndsScript(b) <==> EndsScript(b[..n]) || b[n].Reset? || b[n].DropSandbox?
  {
    var n := |b| - 1;
    var init := b[..n];
    if k :| 0 <= k < n && (init[k].Reset? || init[k].DropSandbox?) { assert b[k] == init[k]; }
    if k :| 0 <= k < n && (b[k].Reset? || b[k].DropSandbox?) { assert init[k] == b[k]; }
  }

  lemma {:induction false} LastPutConcat(a: seq<Op>, b: seq<Op>, name: string)
    ensures LastPut(a + b, name)
         == if EndsScript(b) || LastPut(b, name).Some? then LastPut(b, name) else LastPut(a, name)
    decreases |b|
  {
    if b == [] {
      assert a + b == a;
    } else {
      var n := |b| - 1;
      LastPutConcat(a, b[..n], name);
      EndsScriptLast(b);
      assert (a + b)[..|a| + n] == a + b[..n] && (a + b)[|a| + n] == b[n];
    }
  }

  /** Layers that differ in their overrides only go on to differ in nothing else. */
  lemma {:induction false} OverridesStayApart(l: Layers, l': Layers, ops: seq<Op>)
    requires l'.(sandbox := l.sandbox) == l
    ensures ApplyAll(l', ops).(sandbox := ApplyAll(l, ops).sandbox) == ApplyAll(l, ops)
    decreases |ops|
  {
    if ops != [] {
      OverridesStayApart(Apply(l, ops[0]), Apply(l', ops[0]), ops[1..]);
    }
  }

  /** With and without a finished request, only the overrides can differ. */
  lemma RequestChangesOverridesOnly(main: Table, before: seq<Op>, request: seq<Op>, after: seq<Op>)
    requires InRequest(request)
    ensures var l := ApplyAll(Bare(main), before + request + [RequestEnd] + after);
            var l' := ApplyAll(Bare(main), before + [RequestEnd] + after);
            l'.(sandbox := l.sandbox) == l
  {
    var m := ApplyAll(Bare(main), before);
    ThroughEnd(main, before, request, after);
    ThroughEnd(main, before, [], after);
    assert before + [] + [RequestEnd] + after == before + [RequestEnd] + after;
    RequestTouches(m, request);
    OverridesStayApart(ApplyAll(m, request).(prepared := None), m.(prepared := None), after);
  }

  lemma {:induction false} RequestTouches(l: Layers, request: seq<Op>)
    requires InRequest(request)
    ensures ApplyAll(l, request).worker == l.worker && ApplyAll(l, request).main == l.main
    decreases |request|
  {
    if request != [] {
      RequestTouches(Apply(l, request[0]), request[1..]);
    }
  }

  /** What a request put as the override of a name, and nothing afterwards replaced or dropped. */
  predicate StillOverrides(request: seq<Op>, after: seq<Op>, name: string) {
    LastPut(request, name).Some? && !EndsScript(after) && LastPut(after, name).None?
  }

  lemma OverrideAfterRequest(before: seq<Op>, request: seq<Op>, after: seq<Op>, name: string)
    requires InRequest(request)
    ensures LastPut(before + request + [RequestEnd] + after, name)
         == if StillOverrides(request, after, name) then LastPut(request, name)
            else LastPut(before + [RequestEnd] + after, name)
  {
    LastPutConcat(before + request + [RequestEnd], after, name);
    LastPutConcat(before + request, [RequestEnd], name);
    LastPutConcat(before, request, name);
    LastPutConcat(before + [RequestEnd], after, name);
    LastPutConcat(before, [RequestEnd], name);
    assert LastPut([RequestEnd], name) == LastPut([], name);
  }

  /** In every history, a finished request leaves getenv(name) as it would be without that request, if and
      only if it did not put the name, or the script has ended since, or the name was put again, or the
      value it put is the one that would be seen anyway. */
  lemma PutenvOutlivesWorkerRequestIff(main: Table, before: seq<Op>, request: seq<Op>, after: seq<Op>, name: string)
    requires InRequest(request)
    ensures var without := Get(ApplyAll(Bare(main), before + [RequestEnd] + after), name);
            Get(ApplyAll(Bare(main), before + request + [RequestEnd] + after), name) == without
            <==> LastPut(request, name).None? || EndsScript(after) || LastPut(after, name).Some?
                 || LastPut(request, name).value == without
  {
    var all, rest := before + request + [RequestEnd] + after, before + [RequestEnd] + after;
    RequestChangesOverridesOnly(main, before, request, after);
    OverrideAfterRequest(before, request, after, name);
    LayersDescribeHistory(main, all, name);
    LayersDescribeHistory(main, rest, name);
    GetenvFollowsHistory(main, all, name);
    GetenvFollowsHistory(main, rest, name);
  }

  predicate Mentions(op: Op, name: string) {
    match op
    case Putenv(setting) => Parse(setting).Assign? && Parse(setting).name == name
    case Prepare(k, _) => k == name
    case _ => false
  }

  /** A name that nobody put or prepared is what it is in the main environment. */
  lemma {:induction false} UnmentionedNameIsMain(main: Table, ops: seq<Op>, name: string)
    requires forall k | 0 <= k < |ops| :: !Mentions(ops[k], name)
    ensures LastPut(ops, name).None? && LastPrepared(ops, name).None? && BootPrepared(ops, name).None?
    ensures Get(ApplyAll(Bare(main), ops), name) == InTable(main, name)
    decreases |ops|
  {
    if ops != [] {
      UnmentionedNameIsMain(main, ops[..|ops| - 1], name);
    }
    GetenvFollowsHistory(main, ops, name);
  }

  /** A worker script boots; one request puts a name; the next request, with entries of its own, reads it.
      Without the first request the name is not there. */
  lemma PutenvReachesNextRequest(boot: seq<Op>, request: seq<Op>, next: seq<Op>)
    requires boot == [Prepare("FRANKENPHP_WORKER", "1"), Handover]
    requires request == [Putenv("A=1")] && next == [Prepare("B", "2")]
    ensures Get(ApplyAll(Bare(map[]), boot + request + [RequestEnd] + next), "A") == Some("1")
    ensures Get(ApplyAll(Bare(map[]), boot + [RequestEnd] + next), "A") == None
  {
    OnlyPutA(request);
    UnmentionedNameIsMain(map[], next, "A");
    OverrideAfterRequest(boot, request, next, "A");
    GetenvFollowsHistory(map[], boot + request + [RequestEnd] + next, "A");
    UnmentionedNameIsMain(map[], boot + [RequestEnd] + next, "A");
  }

  lemma OnlyPutA(request: seq<Op>)
    requires request == [Putenv("A=1")]
    ensures LastPut(request, "A") == Some(Some("1"))
  {
    ParsesAssignment("A", "1");
    assert "A" + "=" + "1" == "A=1";
  }

  /* ---------- $_ENV ---------- */

  /** get_full_env, which fills $_ENV when a script first uses it. */
  function EnvSuperglobal(l: Layers): Table {
    l.main + (if l.worker.Some? then l.worker.value else OrEmpty(l.prepared))
  }

  /** $_ENV shows a name as the worker's boot prepared it, else as the request did if there was no such boot,
      else as the main environment has it; putenv does not show. */
  lemma SuperglobalShows(l: Layers, name: string)
    ensures InTable(EnvSuperglobal(l), name)
         == if l.worker.Some? && name in l.worker.value then Some(l.worker.value[name])
            else if l.worker.None? && l.prepared.Some? && name in l.prepared.value then Some(l.prepared.value[name])
            else InTable(l.main, name)
  {
  }

  /** $_ENV outlives the requests of a worker: it takes nothing prepared for a request if and only if the
      boot had prepared entries, or the request's repeat the main environment. */
  lemma SuperglobalIgnoresRequestIff(l: Layers)
    ensures EnvSuperglobal(l) == EnvSuperglobal(l.(prepared := None))
       <==> l.worker.Some? || forall name | name in OrEmpty(l.prepared) :: InTable(l.main, name) == Some(OrEmpty(l.prepared)[name])
  {
    if l.worker.None? {
      var p := OrEmpty(l.prepared);
      assert l.main + map[] == l.main;
      if forall name | name in p :: InTable(l.main, name) == Some(p[name]) {
        assert l.main + p == l.main;
      } else {
        var name :| name in p && InTable(l.main, name) != Some(p[name]);
        assert (l.main + p)[name] == p[name];
      }
    }
  }

  /** The boot of a worker script always prepares an entry (FRANKENPHP_WORKER), so $_ENV is the same
      whenever a request of that script first uses it: main and boot entries, and no request's. */
  lemma WorkerSuperglobalIsFixed(main: Table, before: seq<Op>, boot: seq<Op>, requests: seq<Op>)
    requires InRequest(boot) && exists k | 0 <= k < |boot| :: boot[k].Prepare?
    requires forall k | 0 <= k < |requests| :: !requests[k].Handover? && !requests[k].Reset?
    ensures EnvSuperglobal(ApplyAll(Bare(main), before + boot + [Handover] + requests))
         == EnvSuperglobal(ApplyAll(Bare(main), before + boot + [Handover]))
    ensures ApplyAll(Bare(main), before + boot + [Handover]).worker.Some?
  {
    var l := ApplyAll(Bare(main), before + boot);
    var handed := ApplyAll(Bare(main), before + boot + [Handover]);
    ApplyConcat(Bare(main), before, boot);
    BootPrepares(ApplyAll(Bare(main), before), boot);
    ApplyConcat(Bare(main), before + boot, [Handover]);
    assert ApplyAll(l, [Handover]) == Apply(l, Handover);
    ApplyConcat(Bare(main), before + boot + [Handover], requests);
    WorkerLayerStays(handed, requests);
  }

  lemma {:induction false} BootPrepares(l: Layers, boot: seq<Op>)
    requires InRequest(boot) && (l.prepared.Some? || exists k | 0 <= k < |boot| :: boot[k].Prepare?)
    ensures ApplyAll(l, boot).prepared.Some?
    decreases |boot|
  {
    if boot != [] {
      assert forall k | 1 <= k < |boot| :: boot[k] == boot[1..][k - 1];
      BootPrepares(Apply(l, boot[0]), boot[1..]);
    }
  }

  lemma {:induction false} WorkerLayerStays(l: Layers, requests: seq<Op>)
    requires forall k | 0 <= k < |requests| :: !requests[k].Handover? && !requests[k].Reset?
    ensures ApplyAll(l, requests).worker == l.worker && ApplyAll(l, requests).main == l.main
    decreases |requests|
  {
    if requests != [] {
      WorkerLayerStays(Apply(l, requests[0]), requests[1..]);
    }
  }
}
