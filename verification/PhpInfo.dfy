/**
  The phpinfo tables (phpinfo.go): C code borrows a pinned table; registering an entry makes the next
  borrow build a new one; the old one is unpinned once it is retired and nobody reads it any more.
  A borrow that builds a table does so in several steps under phpinfoBuildMu, while registrations
  only take phpinfoMu and may happen in between.
 */
module PhpInfo {
  import opened Options

  datatype Entry = Entry(key: string, value: string)

  /** One generation. `handle` is the pair of pointers handed out; addresses of unpinned tables may be
      used again. `unpins` counts how often it was unpinned. */
  datatype Table = Table(contents: seq<Entry>, handle: nat, readers: nat, retired: bool, unpins: nat)

  /** A borrow: the handle the caller got, which table that was, and how many entries had been
      registered when the borrow began. */
  datatype Borrow = Borrow(table: nat, handle: nat, known: nat, open: bool)

  datatype Builder =
    | Unlocked
    | Cloning(known: nat)                            // the dirty flag was read and cleared
    | Installing(known: nat, contents: seq<Entry>)   // the entries were cloned

  datatype Info = Info(
    entries: seq<Entry>, dirty: bool,
    tables: seq<Table>, current: Option<nat>, retired: seq<nat>,
    builder: Builder, borrows: seq<Borrow>)

  datatype Event =
    | Add(entry: Entry)
    | BeginBorrow
    | Clone
    | Install(handle: nat)      // handle: where the allocator put the new table
    | Release(borrow: nat)

  /* ---------- the operations ---------- */

  function Without(list: seq<nat>, t: nat): seq<nat> {
    if list == [] then []
    else (if list[0] == t then [] else [list[0]]) + Without(list[1..], t)
  }

  /** unpinPHPInfoTableLocked */
  function Unpin(s: Info, t: nat): Info
    requires t < |s.tables|
  {
    var table := s.tables[t];
    if !table.retired || table.readers > 0 then s
    else s.(tables := s.tables[t := table.(unpins := table.unpins + 1)], retired := Without(s.retired, t))
  }

  /** retirePHPInfoTableLocked */
  function Retire(s: Info, t: nat): Info
    requires t < |s.tables|
  {
    var table := s.tables[t];
    if table.retired then s
    else Unpin(s.(tables := s.tables[t := table.(retired := true)], retired := s.retired + [t]), t)
  }

  function FindRetired(s: Info, list: seq<nat>, handle: nat): Option<nat> {
    if list == [] then None
    else if list[0] < |s.tables| && s.tables[list[0]].handle == handle then Some(list[0])
    else FindRetired(s, list[1..], handle)
  }

  /** The table a handle stands for: the current one first, then the retired ones. */
  function Find(s: Info, handle: nat): Option<nat> {
    if s.current.Some? && s.current.value < |s.tables| && s.tables[s.current.value].handle == handle
    then s.current
    else FindRetired(s, s.retired, handle)
  }

  function ReleaseTable(s: Info, t: nat): Info
    requires t < |s.tables|
  {
    var table := s.tables[t];
    Unpin(s.(tables := s.tables[t := table.(readers := if table.readers > 0 then table.readers - 1 else 0)]), t)
  }

  ghost predicate Pinned(s: Info, t: nat) {
    t < |s.tables| && s.tables[t].unpins == 0
  }

  /** The allocator never hands out an address that is still in use. */
  predicate FreeHandle(s: Info, handle: nat) {
    forall t | 0 <= t < |s.tables| && s.tables[t].unpins == 0 :: s.tables[t].handle != handle
  }

  function InstallTable(s: Info, known: nat, contents: seq<Entry>, handle: nat): Info {
    var s1 := s.(tables := s.tables + [Table(contents, handle, 1, false, 0)]);
    var s2 := if s1.current.Some? && s1.current.value < |s1.tables| then Retire(s1, s1.current.value) else s1;
    s2.(current := Some(|s.tables|), builder := Unlocked,
        borrows := s.borrows + [Borrow(|s.tables|, handle, known, true)])
  }

  function Step(s: Info, e: Event): Info {
    match e
    case Add(entry) => s.(entries := s.entries + [entry], dirty := true)
    case BeginBorrow =>
      if s.builder != Unlocked then s
      else if !s.dirty && s.current.Some? && s.current.value < |s.tables| then
        var c := s.current.value;
        var table := s.tables[c];
        s.(tables := s.tables[c := table.(readers := table.readers + 1)],
           borrows := s.borrows + [Borrow(c, table.handle, |s.entries|, true)])
      else s.(dirty := false, builder := Cloning(|s.entries|))
    case Clone =>
      if s.builder.Cloning? then s.(builder := Installing(s.builder.known, s.entries)) else s
    case Install(handle) =>
      if s.builder.Installing? && FreeHandle(s, handle)
      then InstallTable(s, s.builder.known, s.builder.contents, handle) else s
    case Release(b) =>
      if s.builder != Unlocked || b >= |s.borrows| || !s.borrows[b].open then s else
      var s1 := s.(borrows := s.borrows[b := s.borrows[b].(open := false)]);
      match Find(s, s.borrows[b].handle)
      case None => s1
      case Some(t) => if t < |s.tables| then ReleaseTable(s1, t) else s1
  }

  function Run(s: Info, events: seq<Event>): Info
    decreases |events|
  {
    if events == [] then s else Run(Step(s, events[0]), events[1..])
  }

  const START := Info([], true, [], None, [], Unlocked, [])

  /* ---------- the invariant ---------- */

  function Readers(borrows: seq<Borrow>, t: nat): nat {
    if borrows == [] then 0 else
    var n := |borrows| - 1;
    Readers(borrows[..n], t) + (if borrows[n].open && borrows[n].table == t then 1 else 0)
  }

  predicate Prefix(a: seq<Entry>, b: seq<Entry>) {
    |a| <= |b| && a == b[..|a|]
  }

  /** A table is unpinned exactly when it is retired and unread; its readers are the open borrows. */
  predicate TableOk(s: Info, t: nat)
    requires t < |s.tables|
  {
    var table := s.tables[t];
    && table.unpins == (if table.retired && table.readers == 0 then 1 else 0)
    && table.readers == Readers(s.borrows, t)
    && (table.retired <==> s.current != Some(t))
    && (t in s.retired <==> table.retired && table.readers > 0)
    && Prefix(table.contents, s.entries)
  }

  predicate BorrowOk(s: Info, b: Borrow) {
    b.table < |s.tables| && b.known <= |s.tables[b.table].contents|
    && (b.open ==> s.tables[b.table].handle == b.handle)
  }

  predicate BuilderOk(s: Info) {
    match s.builder
    case Unlocked =>
      !s.dirty ==> s.current.Some? && s.current.value < |s.tables| && s.tables[s.current.value].contents == s.entries
    case Cloning(known) => known <= |s.entries|
    case Installing(known, contents) =>
      known <= |contents| && Prefix(contents, s.entries) && (!s.dirty ==> contents == s.entries)
  }

  /** Pinned tables have different addresses. */
  predicate HandlesDiffer(s: Info) {
    forall t, u | 0 <= t < u < |s.tables| && s.tables[t].unpins == 0 && s.tables[u].unpins == 0 ::
      s.tables[t].handle != s.tables[u].handle
  }

  ghost predicate Inv(s: Info) {
    && (s.current.Some? ==> s.current.value < |s.tables|)
    && (forall t | 0 <= t < |s.tables| :: TableOk(s, t))
    && (forall k | 0 <= k < |s.retired| :: s.retired[k] < |s.tables|)
    && (forall j, k | 0 <= j < k < |s.retired| :: s.retired[j] != s.retired[k])
    && HandlesDiffer(s)
    && (forall b | 0 <= b < |s.borrows| :: BorrowOk(s, s.borrows[b]))
    && BuilderOk(s)
  }

  lemma {:induction false} WithoutSpec(list: seq<nat>, t: nat)
    requires forall j, k | 0 <= j < k < |list| :: list[j] != list[k]
    ensures forall x :: x in Without(list, t) <==> x in list && x != t
    ensures forall j, k | 0 <= j < k < |Without(list, t)| :: Without(list, t)[j] != Without(list, t)[k]
  {
    if list != [] {
      WithoutSpec(list[1..], t);
      var rest := Without(list[1..], t);
      assert list[0] !in list[1..];
      assert list == [list[0]] + list[1..];
    }
  }

  lemma {:induction false} ReadersPut(borrows: seq<Borrow>, b: nat, next: Borrow, t: nat)
    requires b < |borrows|
    ensures Readers(borrows[b := next], t)
         == Readers(borrows, t) - (if borrows[b].open && borrows[b].table == t then 1 else 0)
            + (if next.open && next.table == t then 1 else 0)
  {
    var n := |borrows| - 1;
    if b < n {
      ReadersPut(borrows[..n], b, next, t);
      assert borrows[b := next][..n] == borrows[..n][b := next];
    } else {
      assert borrows[b := next][..n] == borrows[..n];
    }
  }

  lemma ReadersAppend(borrows: seq<Borrow>, next: Borrow, t: nat)
    ensures Readers(borrows + [next], t) == Readers(borrows, t) + (if next.open && next.table == t then 1 else 0)
  {
    assert (borrows + [next])[..|borrows|] == borrows;
  }

  lemma {:induction false} ReadersOfNew(s: Info, borrows: seq<Borrow>)
    requires forall b | 0 <= b < |borrows| :: borrows[b].table < |s.tables|
    ensures Readers(borrows, |s.tables|) == 0
  {
    if borrows != [] {
      ReadersOfNew(s, borrows[..|borrows| - 1]);
    }
  }

  /** An open borrow keeps its table pinned. */
  lemma OpenMeansRead(s: Info, b: nat)
    requires Inv(s) && b < |s.borrows| && s.borrows[b].open
    ensures s.borrows[b].table < |s.tables| && s.tables[s.borrows[b].table].readers > 0
  {
    var t := s.borrows[b].table;
    assert BorrowOk(s, s.borrows[b]);
    assert TableOk(s, t);
    ReadersPut(s.borrows, b, s.borrows[b].(open := false), t);
  }

  lemma {:induction false} FindRetiredSpec(s: Info, list: seq<nat>, t: nat)
    requires t in list && t < |s.tables|
    requires forall x | x in list && x < |s.tables| && s.tables[x].handle == s.tables[t].handle :: x == t
    ensures FindRetired(s, list, s.tables[t].handle) == Some(t)
  {
    if list[0] != t {
      assert list == [list[0]] + list[1..];
      FindRetiredSpec(s, list[1..], t);
    }
  }

  /** The handle of an open borrow is found to be the table that was borrowed. */
  lemma FindIsBorrowedTable(s: Info, b: nat)
    requires Inv(s) && b < |s.borrows| && s.borrows[b].open
    ensures Find(s, s.borrows[b].handle) == Some(s.borrows[b].table)
  {
    OpenMeansRead(s, b);
    var t := s.borrows[b].table;
    assert BorrowOk(s, s.borrows[b]) && TableOk(s, t);
    if s.current != Some(t) {
      if s.current.Some? { assert TableOk(s, s.current.value); }
      forall x | x in s.retired && x < |s.tables| && s.tables[x].handle == s.tables[t].handle
        ensures x == t
      {
        assert TableOk(s, x);
      }
      FindRetiredSpec(s, s.retired, t);
    }
  }

  /* ---------- every event keeps the invariant ---------- */

  lemma AddOk(s: Info, entry: Entry)
    requires Inv(s)
    ensures Inv(Step(s, Add(entry)))
  {
    var s1 := Step(s, Add(entry));
    forall t | 0 <= t < |s1.tables| ensures TableOk(s1, t) { assert TableOk(s, t); }
    forall b | 0 <= b < |s1.borrows| ensures BorrowOk(s1, s1.borrows[b]) { assert BorrowOk(s, s.borrows[b]); }
  }

  lemma BeginOk(s: Info)
    requires Inv(s)
    ensures Inv(Step(s, BeginBorrow))
  {
    var s1 := Step(s, BeginBorrow);
    if s.builder == Unlocked && !s.dirty {
      var c := s.current.value;
      forall t | 0 <= t < |s1.tables|
        ensures TableOk(s1, t)
      {
        assert TableOk(s, t);
        ReadersAppend(s.borrows, s1.borrows[|s.borrows|], t);
      }
      forall b | 0 <= b < |s1.borrows|
        ensures BorrowOk(s1, s1.borrows[b])
      {
        if b < |s.borrows| { assert BorrowOk(s, s.borrows[b]); }
      }
      assert TableOk(s, c);
    } else {
      forall t | 0 <= t < |s1.tables| ensures TableOk(s1, t) { assert TableOk(s, t); }
      forall b | 0 <= b < |s1.borrows| ensures BorrowOk(s1, s1.borrows[b]) { assert BorrowOk(s, s.borrows[b]); }
    }
  }

  lemma CloneOk(s: Info)
    requires Inv(s)
    ensures Inv(Step(s, Clone))
  {
    var s1 := Step(s, Clone);
    forall t | 0 <= t < |s1.tables| ensures TableOk(s1, t) { assert TableOk(s, t); }
    forall b | 0 <= b < |s1.borrows| ensures BorrowOk(s1, s1.borrows[b]) { assert BorrowOk(s, s.borrows[b]); }
  }

  /** The retired list after the current table c, if any, was retired. */
  lemma RetiredListOk(s: Info, s1: Info)
    requires Inv(s) && s.builder.Installing?
    requires s1.retired == (if s.current.None? then s.retired
                            else if s.tables[s.current.value].readers > 0 then s.retired + [s.current.value]
                            else Without(s.retired + [s.current.value], s.current.value))
    ensures forall j, k | 0 <= j < k < |s1.retired| :: s1.retired[j] != s1.retired[k]
    ensures forall x :: x in s1.retired <==> x in s.retired || (s.current == Some(x) && s.tables[x].readers > 0)
  {
    if s.current.Some? {
      var c := s.current.value;
      assert TableOk(s, c);
      assert c !in s.retired;
      WithoutSpec(s.retired + [c], c);
    }
  }

  /** What an install does to the tables there were: only the current one is retired. */
  lemma InstallShape(s: Info, handle: nat)
    requires Inv(s) && s.builder.Installing? && FreeHandle(s, handle)
    ensures var s1 := Step(s, Install(handle));
            var n := |s.tables|;
            && |s1.tables| == n + 1 && s1.tables[n] == Table(s.builder.contents, handle, 1, false, 0)
            && (forall t | 0 <= t < n && s.current != Some(t) :: s1.tables[t] == s.tables[t])
            && (s.current.Some? ==>
                  var c := s.current.value;
                  s1.tables[c] == s.tables[c].(retired := true, unpins := if s.tables[c].readers > 0 then 0 else 1))
            && s1.retired == (if s.current.None? then s.retired
                              else if s.tables[s.current.value].readers > 0 then s.retired + [s.current.value]
                              else Without(s.retired + [s.current.value], s.current.value))
  {
    if s.current.Some? { assert TableOk(s, s.current.value); }
  }

  lemma OlderTableOk(s: Info, handle: nat, t: nat)
    requires Inv(s) && s.builder.Installing? && FreeHandle(s, handle) && t < |s.tables|
    ensures t < |Step(s, Install(handle)).tables| && TableOk(Step(s, Install(handle)), t)
  {
    var s1 := Step(s, Install(handle));
    InstallShape(s, handle);
    RetiredListOk(s, s1);
    ReadersAppend(s.borrows, s1.borrows[|s.borrows|], t);
    assert TableOk(s, t);
  }

  lemma NewTableOk(s: Info, handle: nat)
    requires Inv(s) && s.builder.Installing? && FreeHandle(s, handle)
    ensures |s.tables| < |Step(s, Install(handle)).tables| && TableOk(Step(s, Install(handle)), |s.tables|)
  {
    var n := |s.tables|;
    var s1 := Step(s, Install(handle));
    InstallShape(s, handle);
    RetiredListOk(s, s1);
    ReadersAppend(s.borrows, s1.borrows[|s.borrows|], n);
    forall b | 0 <= b < |s.borrows| ensures s.borrows[b].table < n { assert BorrowOk(s, s.borrows[b]); }
    ReadersOfNew(s, s.borrows);
    assert n !in s.retired;
  }

  lemma InstallHandlesOk(s: Info, handle: nat)
    requires Inv(s) && s.builder.Installing? && FreeHandle(s, handle)
    ensures HandlesDiffer(Step(s, Install(handle)))
  {
    InstallShape(s, handle);
    var s1 := Step(s, Install(handle));
    forall t | 0 <= t < |s.tables|
      ensures s1.tables[t].handle == s.tables[t].handle && (s1.tables[t].unpins == 0 ==> s.tables[t].unpins == 0)
    {
      assert TableOk(s, t);
    }
  }

  lemma InstallOk(s: Info, handle: nat)
    requires Inv(s) && s.builder.Installing? && FreeHandle(s, handle)
    ensures Inv(Step(s, Install(handle)))
  {
    var s1 := Step(s, Install(handle));
    InstallShape(s, handle);
    RetiredListOk(s, s1);
    InstallHandlesOk(s, handle);
    forall t | 0 <= t < |s1.tables| ensures TableOk(s1, t) {
      if t < |s.tables| { OlderTableOk(s, handle, t); } else { NewTableOk(s, handle); }
    }
    forall b | 0 <= b < |s1.borrows|
      ensures BorrowOk(s1, s1.borrows[b])
    {
      if b < |s.borrows| { assert BorrowOk(s, s.borrows[b]); }
    }
    forall k | 0 <= k < |s1.retired|
      ensures s1.retired[k] < |s1.tables|
    {
      assert s1.retired[k] in s1.retired;
    }
  }

  /** What a release does: the borrowed table loses a reader, and is unpinned if that was the last one of
      a retired table. */
  lemma ReleaseShape(s: Info, b: nat)
    requires Inv(s) && s.builder == Unlocked && b < |s.borrows| && s.borrows[b].open
    ensures s.borrows[b].table < |s.tables|
    ensures var t := s.borrows[b].table;
            var table := s.tables[t];
            var last := table.retired && table.readers == 1;
            && table.readers > 0
            && Step(s, Release(b))
               == s.(borrows := s.borrows[b := s.borrows[b].(open := false)],
                     tables := s.tables[t := table.(readers := table.readers - 1, unpins := if last then 1 else 0)],
                     retired := if last then Without(s.retired, t) else s.retired)
  {
    FindIsBorrowedTable(s, b);
    OpenMeansRead(s, b);
    var t := s.borrows[b].table;
    var table := s.tables[t];
    assert TableOk(s, t);
    assert s.tables[t := table.(readers := table.readers - 1)][t := table.(readers := table.readers - 1, unpins := 1)]
        == s.tables[t := table.(readers := table.readers - 1, unpins := 1)];
  }

  lemma ReleaseOk(s: Info, b: nat)
    requires Inv(s) && s.builder == Unlocked && b < |s.borrows| && s.borrows[b].open
    ensures Inv(Step(s, Release(b)))
  {
    ReleaseShape(s, b);
    var s1 := Step(s, Release(b));
    var t := s.borrows[b].table;
    assert TableOk(s, t);
    WithoutSpec(s.retired, t);
    forall u | 0 <= u < |s1.tables|
      ensures TableOk(s1, u)
    {
      assert TableOk(s, u);
      ReadersPut(s.borrows, b, s.borrows[b].(open := false), u);
    }
    forall i | 0 <= i < |s1.borrows|
      ensures BorrowOk(s1, s1.borrows[i])
    {
      assert BorrowOk(s, s.borrows[i]);
    }
    forall k | 0 <= k < |s1.retired|
      ensures s1.retired[k] < |s1.tables|
    {
      assert s1.retired[k] in s1.retired;
    }
  }

  lemma StepOk(s: Info, e: Event)
    requires Inv(s)
    ensures Inv(Step(s, e))
  {
    match e
    case Add(entry) => AddOk(s, entry);
    case BeginBorrow => BeginOk(s);
    case Clone => CloneOk(s);
    case Install(handle) => if s.builder.Installing? && FreeHandle(s, handle) { InstallOk(s, handle); }
    case Release(b) => if s.builder == Unlocked && b < |s.borrows| && s.borrows[b].open { ReleaseOk(s, b); }
  }

  lemma {:induction false} RunOk(s: Info, events: seq<Event>)
    requires Inv(s)
    ensures Inv(Run(s, events))
    decreases |events|
  {
    if events != [] {
      StepOk(s, events[0]);
      RunOk(Step(s, events[0]), events[1..]);
    }
  }

  /* ---------- what every interleaving guarantees ---------- */

  /** A table is unpinned at most once, and exactly when it is retired and nobody reads it; the retired
      list holds exactly the retired tables that are still borrowed. */
  lemma UnpinnedOnceWhenRetiredAndUnread(events: seq<Event>, t: nat)
    requires t < |Run(START, events).tables|
    ensures var s := Run(START, events);
            var table := s.tables[t];
            && table.unpins == (if table.retired && Readers(s.borrows, t) == 0 then 1 else 0)
            && (t in s.retired <==> table.retired && Readers(s.borrows, t) > 0)
  {
    RunOk(START, events);
    assert TableOk(Run(START, events), t);
  }

  /** A borrowed table stays pinned until its borrow is released, and the release finds that very table. */
  lemma BorrowedTableStaysPinned(events: seq<Event>, b: nat)
    requires b < |Run(START, events).borrows| && Run(START, events).borrows[b].open
    ensures var s := Run(START, events);
            Pinned(s, s.borrows[b].table) && Find(s, s.borrows[b].handle) == Some(s.borrows[b].table)
  {
    RunOk(START, events);
    var s := Run(START, events);
    OpenMeansRead(s, b);
    FindIsBorrowedTable(s, b);
    assert TableOk(s, s.borrows[b].table);
  }

  /** The entries a history registered, in order. */
  function Registered(events: seq<Event>): seq<Entry> {
    if events == [] then [] else
    var n := |events| - 1;
    Registered(events[..n]) + (if events[n].Add? then [events[n].entry] else [])
  }

  lemma {:induction false} RunLast(s: Info, events: seq<Event>)
    requires events != []
    ensures Run(s, events) == Step(Run(s, events[..|events| - 1]), events[|events| - 1])
    decreases |events|
  {
    var n := |events| - 1;
    if n > 0 {
      RunLast(Step(s, events[0]), events[1..]);
      assert events[1..][..n - 1] == events[..n][1..];
    }
  }

  /** Every registration counts, whatever borrow is being built meanwhile. */
  lemma {:induction false} EntriesAreRegistered(events: seq<Event>)
    ensures Run(START, events).entries == Registered(events)
  {
    if events != [] {
      RunLast(START, events);
      EntriesAreRegistered(events[..|events| - 1]);
    }
  }

  /** A borrow that begins after a history shows at least what that history registered: it records that
      many entries as known, whether it takes the current table or starts to build one. */
  lemma BorrowKnowsAll(events: seq<Event>)
    requires Run(START, events).builder == Unlocked
    ensures var s, t := Run(START, events), Step(Run(START, events), BeginBorrow);
            if t.builder == Unlocked
            then |t.borrows| == |s.borrows| + 1 && t.borrows[|s.borrows|].open && t.borrows[|s.borrows|].known == |Registered(events)|
            else t.builder == Cloning(|Registered(events)|) && t.borrows == s.borrows
  {
    RunOk(START, events);
    EntriesAreRegistered(events);
  }

  /** A borrow takes the current table as it is, without building a new one, exactly if there is one and
      nothing was registered since the borrow that built it began. */
  lemma CleanTableIsReused(s: Info)
    requires Inv(s) && s.builder == Unlocked
    ensures !s.dirty ==> Step(s, BeginBorrow).tables == s.tables[s.current.value := s.tables[s.current.value].(readers := s.tables[s.current.value].readers + 1)]
                         && Step(s, BeginBorrow).builder == Unlocked
    ensures s.dirty <==> Step(s, BeginBorrow).builder != Unlocked
  {
  }

  /** A table is out of date exactly from a registration on until a borrow begins. */
  lemma DirtyFromAddToBorrow(s: Info, e: Event)
    ensures Step(s, e).dirty <==> e.Add? || (s.dirty && !(e.BeginBorrow? && s.builder == Unlocked))
  {
  }

  /** A borrow that builds a table hands out that table, made of the entries there were when they were cloned,
      and keeps what it knew when it began. */
  lemma BuildHandsOut(s: Info, handle: nat)
    requires s.builder.Cloning?
    ensures var c := Step(s, Clone);
            FreeHandle(c, handle) ==>
              var t, n := Step(c, Install(handle)), |s.tables|;
              && t.builder == Unlocked && t.current == Some(n) && |t.tables| == n + 1
              && t.tables[n].contents == s.entries && t.tables[n].handle == handle
              && |t.borrows| == |s.borrows| + 1 && t.borrows[|s.borrows|] == Borrow(n, handle, s.builder.known, true)
  {
  }

  /** A borrow shows exactly the first entries that were registered, in order, and among them all that had
      been registered when it began. */
  lemma BorrowShowsEarlierEntries(events: seq<Event>, b: nat, k: nat)
    requires b < |Run(START, events).borrows| && k < Run(START, events).borrows[b].known
    ensures var s := Run(START, events);
            && s.borrows[b].table < |s.tables| && k < |s.entries|
            && s.borrows[b].known <= |s.tables[s.borrows[b].table].contents| <= |Registered(events)|
            && s.tables[s.borrows[b].table].contents == Registered(events)[..|s.tables[s.borrows[b].table].contents|]
            && s.entries[k] in s.tables[s.borrows[b].table].contents
  {
    RunOk(START, events);
    EntriesAreRegistered(events);
    var s := Run(START, events);
    assert BorrowOk(s, s.borrows[b]);
    assert TableOk(s, s.borrows[b].table);
    assert s.tables[s.borrows[b].table].contents[k] == s.entries[k];
  }

  /* ---------- the code: the tables are updated in place under the two locks ---------- */

  lemma {:induction false} WithoutConcat(a: seq<nat>, b: seq<nat>, t: nat)
    ensures Without(a + b, t) == Without(a, t) + Without(b, t)
  {
    if a == [] {
      assert a + b == b;
    } else {
      assert (a + b)[1..] == a[1..] + b;
      WithoutConcat(a[1..], b, t);
    }
  }

  class InfoTables {
    var entries: seq<Entry>
    var dirty: bool
    var tables: seq<Table>
    var current: Option<nat>
    var retired: seq<nat>
    var builder: Builder
    var borrows: seq<Borrow>

    ghost function View(): Info
      reads this
    {
      Info(entries, dirty, tables, current, retired, builder, borrows)
    }

    constructor ()
      ensures View() == START
    {
      entries, dirty, tables, current, retired, builder, borrows := [], true, [], None, [], Unlocked, [];
    }

    method AddPHPInfoEntry(entry: Entry)
      modifies this
      ensures View() == Step(old(View()), Add(entry))
    {
      entries := entries + [entry];
      dirty := true;
    }

    method UnpinLocked(t: nat)
      requires t < |tables|
      modifies this`tables, this`retired
      ensures View() == Unpin(old(View()), t)
    {
      if !tables[t].retired || tables[t].readers > 0 {
        return;
      }
      ghost var was := tables;
      tables := tables[t := tables[t].(unpins := tables[t].unpins + 1)];
      var list, kept: seq<nat> := retired, [];
      for i := 0 to |list|
        invariant kept == Without(list[..i], t)
        invariant tables == was[t := was[t].(unpins := was[t].unpins + 1)]
      {
        assert list[..i + 1] == list[..i] + [list[i]];
        WithoutConcat(list[..i], [list[i]], t);
        if list[i] != t {
          kept := kept + [list[i]];
        }
      }
      assert list[..|list|] == list;
      retired := kept;
    }

    method RetireLocked(t: nat)
      requires t < |tables|
      modifies this`tables, this`retired
      ensures View() == Retire(old(View()), t)
    {
      if tables[t].retired {
        return;
      }
      tables := tables[t := tables[t].(retired := true)];
      retired := retired + [t];
      UnpinLocked(t);
    }

    /** The first part of a borrow: read and clear the dirty flag, hand out the current table if it is
        up to date. */
    method BeginCollect() returns (handle: Option<nat>)
      requires builder == Unlocked && (current.Some? ==> current.value < |tables|)
      modifies this
      ensures View() == Step(old(View()), BeginBorrow)
      ensures handle.Some? <==> builder == Unlocked
      ensures handle.Some? ==> borrows != [] && borrows[|borrows| - 1].handle == handle.value
    {
      var wasDirty := dirty;
      dirty := false;
      if !wasDirty && current.Some? {
        var c := current.value;
        tables := tables[c := tables[c].(readers := tables[c].readers + 1)];
        borrows := borrows + [Borrow(c, tables[c].handle, |entries|, true)];
        return Some(tables[c].handle);
      }
      builder := Cloning(|entries|);
      handle := None;
    }

    method CloneEntries()
      requires builder.Cloning?
      modifies this`builder
      ensures View() == Step(old(View()), Clone)
    {
      builder := Installing(builder.known, entries);
    }

    method InstallTable(handle: nat)
      requires builder.Installing? && FreeHandle(View(), handle) && (current.Some? ==> current.value < |tables|)
      modifies this
      ensures View() == Step(old(View()), Install(handle))
    {
      var t := |tables|;
      tables := tables + [Table(builder.contents, handle, 1, false, 0)];
      if current.Some? {
        RetireLocked(current.value);
      }
      borrows := borrows + [Borrow(t, handle, builder.known, true)];
      current, builder := Some(t), Unlocked;
    }

    method LocateTable(handle: nat) returns (t: Option<nat>)
      ensures t == Find(View(), handle)
    {
      if current.Some? && current.value < |tables| && tables[current.value].handle == handle {
        return current;
      }
      ghost var v := View();
      for i := 0 to |retired|
        invariant FindRetired(v, retired[i..], handle) == FindRetired(v, retired, handle)
      {
        assert retired[i..][1..] == retired[i + 1..];
        if retired[i] < |tables| && tables[retired[i]].handle == handle {
          return Some(retired[i]);
        }
      }
      return None;
    }

    method ReleaseBorrow(b: nat)
      requires builder == Unlocked && b < |borrows| && borrows[b].open
      modifies this
      ensures View() == Step(old(View()), Release(b))
    {
      var t := LocateTable(borrows[b].handle);
      borrows := borrows[b := borrows[b].(open := false)];
      if t.None? || t.value >= |tables| {
        return;
      }
      if tables[t.value].readers > 0 {
        tables := tables[t.value := tables[t.value].(readers := tables[t.value].readers - 1)];
      }
      assert tables[t.value := tables[t.value]] == tables;
      UnpinLocked(t.value);
    }
  }
}
