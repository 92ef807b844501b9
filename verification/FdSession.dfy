/** Processes with their descriptor tables on one file system: what every sequence of their calls keeps. */
module FdSession {
  import opened VfsTree
  import opened VfsSplit
  import opened VfsRefs
  import opened Vfs
  import opened Options
  import opened FdTables

  // ---- the calls of one process ----

  /** The descriptors that are not in the table. */
  ghost function Others(fds: Fds, s: seq<Ref>): Fds { fds - Owned(s) }

  /** The table's descriptors exist. */
  ghost predicate Holds(fds: Fds, s: seq<Ref>) { NULL !in fds && Owned(s) <= fds.Keys }

  lemma {:induction false} OwnedSet(s: seq<Ref>, i: nat, f: Ref)
    requires i < |s| && Apart(s)
    ensures Owned(s[i := f]) == Owned(s) - (if s[i] == NULL then {} else {s[i]}) + if f == NULL then {} else {f}
  {
    var s' := s[i := f];
    forall g | g in s && g != s[i] ensures g in s' {
      var j :| 0 <= j < |s| && s[j] == g;
      assert s'[j] == g;
    }
    assert s'[i] == f;
  }

  /** A descriptor of no table comes into this one. */
  lemma {:induction false} HoldsMore(fds: Fds, s: seq<Ref>, i: nat, f: Ref)
    requires i < |s| && Apart(s) && s[i] == NULL && Holds(fds, s) && f in fds && f !in s
    ensures Holds(fds, s[i := f]) && Others(fds, s[i := f]) == Others(fds, s) - {f}
  {
    OwnedSet(s, i, f);
  }

  /** A descriptor leaves the table, and is closed or not. */
  lemma {:induction false} HoldsLess(fds: Fds, s: seq<Ref>, i: nat)
    requires i < |s| && Apart(s) && s[i] != NULL && Holds(fds, s)
    ensures s[i] in fds && Holds(fds, s[i := NULL]) && Others(fds, s[i := NULL]) == Others(fds, s)[s[i] := fds[s[i]]]
    ensures Holds(fds - {s[i]}, s[i := NULL]) && Others(fds - {s[i]}, s[i := NULL]) == Others(fds, s)
  {
    OwnedSet(s, i, NULL);
    assert s[i] in Owned(s);
  }

  /** A descriptor that is new, or one of no table that goes. */
  lemma {:induction false} HoldsNew(fds: Fds, s: seq<Ref>, f: Ref, n: Ref)
    requires Holds(fds, s) && f !in fds && f != NULL
    ensures f !in s && Holds(fds[f := n], s) && Others(fds[f := n], s) == Others(fds, s)[f := n]
    ensures fds[f := n] - {f} == fds && Others(fds, s)[f := n] - {f} == Others(fds, s)
  {
    assert f in s ==> f in Owned(s);
  }

  lemma {:induction false} NoNull(files: Files)
    requires files.Valid()
    ensures NULL !in files.fds
  {
  }

  /** No number from 3 on is free. */
  ghost predicate NoRoom(s: seq<Ref>) {
    forall i :: FIRST_FD <= i < |s| ==> s[i] != NULL
  }

  /** The lowest number from 3 on that is free. */
  ghost predicate LowestFree(s: seq<Ref>, i: nat) {
    FIRST_FD <= i < |s| && s[i] == NULL && forall j :: FIRST_FD <= j < i ==> s[j] != NULL
  }

  /** Puts a new descriptor into the table, or closes it if there is no room. */
  method InstallOrClose(files: Files, t: Table, f: Ref, ghost fds0: Fds) returns (r: Result<nat>)
    requires files.Valid() && t.Valid() && Holds(fds0, t.slots[..]) && f !in fds0 && f in files.fds
    requires files.fds == fds0[f := files.fds[f]]
    modifies files`refs, files`fds, t, t.slots
    ensures files.Valid() && t.Valid() && Holds(files.fds, t.slots[..])
    ensures Others(files.fds, t.slots[..]) == Others(fds0, old(t.slots[..]))
    ensures r.Done? ==>
      LowestFree(old(t.slots[..]), r.value) && t.slots[..] == old(t.slots[..])[r.value := f] &&
      files.fds == old(files.fds)
    ensures r.Failed? ==> t.slots[..] == old(t.slots[..]) && files.fds == fds0
    ensures r.Failed? <==> NoRoom(old(t.slots[..]))
  {
    hide Files.Valid, Used, Owned, Others, Holds;
    NoNull(files);
    ghost var s := t.slots[..];
    HoldsNew(fds0, s, f, files.fds[f]);
    r := t.Install(f);
    if r.Failed? {
      files.Close(f);
    } else {
      HoldsMore(files.fds, s, r.value, f);
    }
  }

  /** Opens a path in a process; `nameless` is whether it made a node without a name. */
  method SysOpen(files: Files, t: Table, path: string, create: bool, mem: Ref, fmem: Ref)
    returns (r: Result<nat>, ghost nameless: bool)
    requires files.Valid() && t.Valid() && Holds(files.fds, t.slots[..])
    requires |path| <= PATH_MAX && (mem == NULL || mem !in files.refs) && (fmem == NULL || fmem !in files.fds)
    modifies files, t, t.slots
    ensures files.Valid() && t.Valid() && Holds(files.fds, t.slots[..])
    ensures Others(files.fds, t.slots[..]) == Others(old(files.fds), old(t.slots[..]))
    ensures r.Done? <==> fmem != NULL && !NoRoom(old(t.slots[..])) &&
                         (old(files.At(path)) != NULL || (create && old(files.Creatable(path)) && mem != NULL))
    ensures r.Done? ==>
      LowestFree(old(t.slots[..]), r.value) && t.slots[..] == old(t.slots[..])[r.value := fmem] &&
      files.fds == old(files.fds)[fmem := if old(files.At(path)) == NULL then mem else old(files.At(path))]
    ensures r.Failed? ==> t.slots[..] == old(t.slots[..]) && files.fds == old(files.fds)
    ensures nameless ==> create && path == ""
    ensures files.AllNamed() <==> old(files.AllNamed()) && !nameless
  {
    hide Files.Valid, Used, Owned, Others, Holds, Resolved, Nameful, Files.Created, Files.Creatable, Counted, LeafOf,
         NoRoom, LowestFree;
    ghost var was, fds0 := files.At(path), files.fds;
    var st, f := files.Open(path, create, mem, fmem);
    nameless := was == NULL && (st == Ok || st == OutOfMemory) && path == "";
    if st != Ok {
      return Failed(st), nameless;
    }
    r := InstallOrClose(files, t, f, fds0);
  }

  /** Closes a number of a process. */
  method SysClose(files: Files, t: Table, fd: nat) returns (ok: bool)
    requires files.Valid() && t.Valid() && Holds(files.fds, t.slots[..])
    modifies files`refs, files`fds, t, t.slots
    ensures files.Valid() && t.Valid() && Holds(files.fds, t.slots[..])
    ensures Others(files.fds, t.slots[..]) == Others(old(files.fds), old(t.slots[..]))
    ensures ok <==> fd < MAX_FDS && old(t.slots[fd]) != NULL
    ensures ok ==> t.slots[..] == old(t.slots[..])[fd := NULL] && files.fds == old(files.fds) - {old(t.slots[fd])}
    ensures !ok ==> t.slots[..] == old(t.slots[..]) && files.fds == old(files.fds)
  {
    hide Files.Valid, Used, Owned, Others, Holds;
    ghost var s := t.slots[..];
    var r := t.Remove(fd);
    ok := r.Done?;
    if ok {
      HoldsLess(files.fds, s, fd);
      NoNull(files);
      files.Close(r.value);
    }
  }

  /** Duplicates a number of a process to its lowest free one from 3 on. */
  method SysDup(files: Files, t: Table, fd: nat, fmem: Ref) returns (r: Result<nat>)
    requires files.Valid() && t.Valid() && Holds(files.fds, t.slots[..]) && (fmem == NULL || fmem !in files.fds)
    modifies files`refs, files`fds, t, t.slots
    ensures files.Valid() && t.Valid() && Holds(files.fds, t.slots[..])
    ensures Others(files.fds, t.slots[..]) == Others(old(files.fds), old(t.slots[..]))
    ensures r.Done? <==> fd < MAX_FDS && old(t.slots[fd]) != NULL && fmem != NULL && !NoRoom(old(t.slots[..]))
    ensures r.Done? ==>
      LowestFree(old(t.slots[..]), r.value) && t.slots[..] == old(t.slots[..])[r.value := fmem] &&
      old(t.slots[fd]) in old(files.fds) && files.fds == old(files.fds)[fmem := old(files.fds)[old(t.slots[fd])]]
    ensures r.Failed? ==> t.slots[..] == old(t.slots[..]) && files.fds == old(files.fds)
  {
    hide Files.Valid, Used, Others, NoRoom, LowestFree;
    ghost var fds0 := files.fds;
    var found := t.LookUp(fd);
    if found.Failed? {
      return Failed(BadFileDescriptor);
    }
    assert t.slots[..][fd] in Owned(t.slots[..]);
    hide Owned, Holds;
    var copy := files.Dup(found.value, fmem);
    if copy == NULL {
      return Failed(OutOfFileDescriptors);
    }
    r := InstallOrClose(files, t, copy, fds0);
  }

  /** A 64-bit number cut to a signed one of 32 bits. */
  function ToI32(n: nat): int {
    var low := n % 0x1_0000_0000;
    if low < 0x8000_0000 then low else low - 0x1_0000_0000
  }

  /** The number `to` is open and `from`, another one, too: `dup2` replaces what stands there. */
  predicate Replaces(s: seq<Ref>, from: nat, to: nat) {
    from != to && from < |s| && s[from] != NULL && to < |s| && s[to] != NULL
  }

  /** The number `to` is free for `dup2`, once what stands there is taken out. */
  predicate Placeable(s: seq<Ref>, to: nat) {
    0 <= ToI32(to) < |s| && (ToI32(to) == to || s[ToI32(to)] == NULL)
  }

  /** The slots after a `dup2`, which duplicated a descriptor to `copy` or, if that is NULL, to none. */
  function Replaced(s: seq<Ref>, from: nat, to: nat, copy: Ref): seq<Ref> {
    var s1 := if Replaces(s, from, to) then s[to := NULL] else s;
    if copy != NULL && Placeable(s, to) then s1[ToI32(to) := copy] else s1
  }

  lemma {:induction false} SlotHeld(fds: Fds, s: seq<Ref>, i: nat)
    requires Holds(fds, s) && i < |s| && s[i] != NULL
    ensures s[i] in fds
  {
    assert s[i] in Owned(s);
  }

  /** Duplicates a descriptor to this number of a process, if it is one and free. */
  method DupInto(files: Files, t: Table, f: Ref, to: int, fmem: Ref) returns (r: Result<nat>)
    requires files.Valid() && t.Valid() && Holds(files.fds, t.slots[..]) && (fmem == NULL || fmem !in files.fds)
    requires f in files.fds
    modifies files`refs, files`fds, t, t.slots
    ensures files.Valid() && t.Valid() && Holds(files.fds, t.slots[..])
    ensures Others(files.fds, t.slots[..]) == Others(old(files.fds), old(t.slots[..]))
    ensures r.Done? ==>
      r.value == to && 0 <= to < MAX_FDS && t.slots[..] == old(t.slots[..])[to := fmem] &&
      files.fds == old(files.fds)[fmem := old(files.fds)[f]]
    ensures r.Failed? ==> t.slots[..] == old(t.slots[..]) && files.fds == old(files.fds)
    ensures r.Failed? <==> fmem == NULL || to < 0 || to >= MAX_FDS || old(t.slots[to]) != NULL
  {
    NoNull(files);
    hide Files.Valid, Used, Owned, Others, Holds;
    ghost var s, fds0 := t.slots[..], files.fds;
    var copy := files.Dup(f, fmem);
    if copy == NULL {
      return Failed(OutOfFileDescriptors);
    }
    HoldsNew(fds0, s, copy, fds0[f]);
    r := t.InstallAt(copy, to);
    if r.Failed? {
      files.Close(copy);
    } else {
      HoldsMore(files.fds, s, r.value, copy);
    }
  }

  /** Duplicates one number of a process to another. A descriptor that stood there is taken out of the table
      but not closed, so that it is in no table any more. */
  method SysDup2(files: Files, t: Table, from: nat, to: nat, fmem: Ref) returns (r: Result<nat>)
    requires files.Valid() && t.Valid() && Holds(files.fds, t.slots[..]) && (fmem == NULL || fmem !in files.fds)
    modifies files`refs, files`fds, t, t.slots
    ensures files.Valid() && t.Valid() && Holds(files.fds, t.slots[..])
    ensures !old(Replaces(t.slots[..], from, to)) ==>
      Others(files.fds, t.slots[..]) == Others(old(files.fds), old(t.slots[..]))
    ensures old(Replaces(t.slots[..], from, to)) ==>
      old(t.slots[to]) in old(files.fds) && Others(files.fds, t.slots[..]) ==
      Others(old(files.fds), old(t.slots[..]))[old(t.slots[to]) := old(files.fds)[old(t.slots[to])]]
    ensures r.Done? <==> from == to || (from < MAX_FDS && old(t.slots[from]) != NULL && fmem != NULL &&
                                        Placeable(old(t.slots[..]), to))
    ensures r.Done? ==> r.value == if from == to then to else ToI32(to)
    ensures t.slots[..] == Replaced(old(t.slots[..]), from, to, if r.Done? && from != to then fmem else NULL)
    ensures r.Done? && from != to ==>
      old(t.slots[from]) in old(files.fds) && files.fds == old(files.fds)[fmem := old(files.fds)[old(t.slots[from])]]
    ensures r.Failed? || from == to ==> files.fds == old(files.fds)
  {
    hide Files.Valid, Used, Owned, Others, Holds, ToI32, Apart;
    if from == to {
      return Done(to);
    }
    var found := t.LookUp(from);
    if found.Failed? {
      return Failed(BadFileDescriptor);
    }
    ghost var s := t.slots[..];
    SlotHeld(files.fds, s, from);
    var removed := t.Remove(to);
    if removed.Done? {
      HoldsLess(files.fds, s, to);
      NoNull(files);
      assert files.fds - {NULL} == files.fds;
      files.Close(NULL);
    }
    r := DupInto(files, t, found.value, ToI32(to), fmem);
  }

  /** Two numbers from 3 on are free. */
  ghost predicate RoomForTwo(s: seq<Ref>) {
    exists i, j :: FIRST_FD <= i < j < |s| && s[i] == NULL && s[j] == NULL
  }

  lemma {:induction false} NoRoomForTwo(s: seq<Ref>, s': seq<Ref>, r: nat)
    requires r < |s| == |s'| && s' == s[r := s'[r]] && NoRoom(s')
    ensures !RoomForTwo(s)
  {
    forall i, j | FIRST_FD <= i < j < |s| ensures s[i] != NULL || s[j] != NULL {
      assert s'[i] == s[i] || s'[j] == s[j];
    }
  }

  lemma {:induction false} TwoFound(s: seq<Ref>, i: nat, j: nat)
    requires FIRST_FD <= i < j < |s| && s[i] == NULL && s[j] == NULL
    ensures RoomForTwo(s)
  {
  }

  /** Puts two descriptors into the table, or neither. */
  method InstallBoth(t: Table, a: Ref, b: Ref) returns (ok: bool, i: nat, j: nat)
    requires t.Valid() && a != NULL && b != NULL && a != b && a !in t.slots[..] && b !in t.slots[..]
    modifies t, t.slots
    ensures t.Valid() && (ok <==> RoomForTwo(old(t.slots[..])))
    ensures !ok ==> t.slots[..] == old(t.slots[..])
    ensures ok ==> i < j < MAX_FDS && t.slots[..] == old(t.slots[..])[i := a][j := b] && Apart(old(t.slots[..])[i := a])
    ensures ok ==> LowestFree(old(t.slots[..]), i) && LowestFree(old(t.slots[..])[i := a], j)
  {
    hide Used, RoomForTwo;
    ghost var s := t.slots[..];
    ok, i, j := false, 0, 0;
    var r := t.Install(a);
    if r.Failed? {
      NoRoomForTwo(s, s, 0);
      return;
    }
    ghost var s1 := t.slots[..];
    var w := t.Install(b);
    if w.Failed? {
      NoRoomForTwo(s, s1, r.value);
      var removed := t.Remove(r.value);
      assert s1[r.value := NULL] == s;
      return;
    }
    TwoFound(s, r.value, w.value);
    ok, i, j := true, r.value, w.value;
  }

  /** Makes a pipe and puts both its ends into the table, or neither. */
  method SysPipe(files: Files, t: Table, mem: Ref, rmem: Ref, wmem: Ref) returns (ok: bool, rfd: nat, wfd: nat)
    requires files.Valid() && t.Valid() && Holds(files.fds, t.slots[..])
    requires (mem == NULL || mem !in files.refs) && (rmem == NULL || rmem !in files.fds)
    requires (wmem == NULL || wmem !in files.fds) && (rmem != NULL ==> rmem != wmem)
    modifies files`refs, files`fds, t, t.slots
    ensures files.Valid() && t.Valid() && Holds(files.fds, t.slots[..])
    ensures Others(files.fds, t.slots[..]) == Others(old(files.fds), old(t.slots[..]))
    ensures !ok ==> files.fds == old(files.fds) && t.slots[..] == old(t.slots[..])
    ensures ok ==> files.fds == old(files.fds)[rmem := mem][wmem := mem] && rmem != NULL && wmem != NULL
    ensures ok ==> rfd < wfd < MAX_FDS && t.slots[..] == old(t.slots[..])[rfd := rmem][wfd := wmem]
    ensures ok ==> LowestFree(old(t.slots[..]), rfd) && LowestFree(old(t.slots[..])[rfd := rmem], wfd)
    ensures ok <==> mem != NULL && rmem != NULL && wmem != NULL && RoomForTwo(old(t.slots[..]))
  {
    hide Files.Valid, Used, Owned, Others, Holds, RoomForTwo;
    ghost var s, fds0 := t.slots[..], files.fds;
    ok, rfd, wfd := false, 0, 0;
    NoNull(files);
    var st := files.Pipe(mem, rmem, wmem);
    if st != Ok {
      return;
    }
    ghost var fds1 := fds0[rmem := mem];
    HoldsNew(fds0, s, rmem, mem);
    HoldsNew(fds1, s, wmem, mem);
    ok, rfd, wfd := InstallBoth(t, rmem, wmem);
    if !ok {
      files.Close(rmem);
      files.Close(wmem);
      assert files.fds == fds0;
      return;
    }
    HoldsMore(fds1, s, rfd, rmem);
    HoldsNew(fds1, s[rfd := rmem], wmem, mem);
    HoldsMore(files.fds, s[rfd := rmem], wfd, wmem);
  }

  // ---- all tables together ----

  /** Every table's descriptors exist, and no descriptor is in two tables. `rows` are the tables' slots. */
  ghost predicate Booked(rows: seq<seq<Ref>>, fds: Fds) {
    && NULL !in fds && (forall i :: 0 <= i < |rows| ==> Owned(rows[i]) <= fds.Keys)
    && (forall i, j :: 0 <= i < j < |rows| ==> Owned(rows[i]) !! Owned(rows[j]))
  }

  /** The descriptors of all tables, and of all but one. */
  ghost function AllOwned(rows: seq<seq<Ref>>): set<Ref> { set f, i | 0 <= i < |rows| && f in Owned(rows[i]) :: f }

  ghost function AllBut(rows: seq<seq<Ref>>, k: nat): set<Ref> {
    set f, i | 0 <= i < |rows| && i != k && f in Owned(rows[i]) :: f
  }

  /** The descriptors that are in no table, so that nobody can close them. */
  ghost function Lost(rows: seq<seq<Ref>>, fds: Fds): set<Ref> { fds.Keys - AllOwned(rows) }

  lemma {:induction false} OneTable(rows: seq<seq<Ref>>, k: nat, s: seq<Ref>)
    requires k < |rows|
    ensures AllOwned(rows) == AllBut(rows, k) + Owned(rows[k])
    ensures AllOwned(rows[k := s]) == AllBut(rows, k) + Owned(s)
  {
    hide Owned;
    var rows' := rows[k := s];
    forall f ensures f in AllOwned(rows') <==> f in AllBut(rows, k) || f in Owned(s) {
      assert rows'[k] == s;
      if f in AllBut(rows, k) {
        var i :| 0 <= i < |rows| && i != k && f in Owned(rows[i]);
        assert rows'[i] == rows[i];
      }
    }
  }

  /** A call changes one table, and leaves the other descriptors or adds some of that table's to them. */
  lemma {:induction false} BookedStep(rows: seq<seq<Ref>>, fds: Fds, k: nat, s: seq<Ref>, fds': Fds)
    requires Booked(rows, fds) && k < |rows| && Holds(fds', s)
    requires Others(fds, rows[k]).Keys <= Others(fds', s).Keys
    ensures Booked(rows[k := s], fds')
    ensures Lost(rows[k := s], fds') == Lost(rows, fds) + (Others(fds', s).Keys - Others(fds, rows[k]).Keys)
  {
    hide Owned;
    forall i | 0 <= i < |rows| && i != k ensures Owned(rows[i]) <= Others(fds, rows[k]).Keys {
      assert Owned(rows[i]) !! Owned(rows[k]);
    }
    assert AllBut(rows, k) <= Others(fds, rows[k]).Keys;
    OneTable(rows, k, s);
    hide AllOwned, AllBut;
  }

  /** A new table whose descriptors are new. */
  lemma {:induction false} BookedMore(rows: seq<seq<Ref>>, fds: Fds, s: seq<Ref>, fds': Fds)
    requires Booked(rows, fds) && fds'.Keys == fds.Keys + Owned(s) && Owned(s) !! fds.Keys
    ensures Booked(rows + [s], fds') && Lost(rows + [s], fds') == Lost(rows, fds)
  {
    assert NULL !in Owned(s);
    hide Owned;
    var rows' := rows + [s];
    assert rows'[|rows|] == s;
    forall f ensures f in AllOwned(rows') <==> f in AllOwned(rows) || f in Owned(s) {
      if f in AllOwned(rows) {
        var i :| 0 <= i < |rows| && f in Owned(rows[i]);
        assert rows'[i] == rows[i];
      }
    }
    assert AllOwned(rows) <= fds.Keys;
  }

  /** A table goes with its descriptors. */
  lemma {:induction false} BookedLess(rows: seq<seq<Ref>>, fds: Fds, k: nat)
    requires Booked(rows, fds) && k < |rows|
    ensures var rows', fds' := rows[..k] + rows[k + 1..], fds - Owned(rows[k]);
            Booked(rows', fds') && Lost(rows', fds') == Lost(rows, fds)
  {
    hide Owned;
    var rows' := rows[..k] + rows[k + 1..];
    forall i | 0 <= i < |rows'| ensures rows'[i] == rows[if i < k then i else i + 1] {
    }
    forall f ensures f in AllOwned(rows') <==> f in AllBut(rows, k) {
      if f in AllBut(rows, k) {
        var i :| 0 <= i < |rows| && i != k && f in Owned(rows[i]);
        assert rows'[if i < k then i else i - 1] == rows[i];
      }
    }
    OneTable(rows, k, rows[k]);
  }

  // ---- sessions ----

  /** What processes do. A process is named by its place among those that live; addresses of new memory come
      from the allocator. */
  datatype Call = MakeDir(path: string, mem: Ref) | Remove(path: string) | Enter(path: string) |
                  Spawn | Fork(k: nat, mems: seq<Ref>) | Exit(k: nat) |
                  Open(k: nat, path: string, create: bool, mem: Ref, fmem: Ref) | Close(k: nat, fd: nat) |
                  Dup(k: nat, fd: nat, fmem: Ref) | Dup2(k: nat, from: nat, to: nat, fmem: Ref) |
                  Pipe(k: nat, mem: Ref, rmem: Ref, wmem: Ref)

  predicate ShortPath(call: Call) { call.MakeDir? || call.Open? ==> |call.path| <= PATH_MAX }

  /** A call that can make a node, with the empty path. */
  predicate Unnamed(call: Call) {
    (call.MakeDir? && call.path == "") || (call.Open? && call.create && call.path == "")
  }

  /** An address that can be handed out: NULL, that is no memory, in place of one in use. */
  function Unused<T>(a: Ref, used: map<Ref, T>): Ref { if a in used then NULL else a }

  /** As many addresses as a table has slots, none in use and none twice. */
  function UnusedAll(mems: seq<Ref>, fds: Fds): (r: seq<Ref>)
    ensures |r| == MAX_FDS && Apart(r) && forall i :: 0 <= i < MAX_FDS ==> r[i] !in fds || r[i] == NULL
  {
    seq(MAX_FDS, i requires 0 <= i < MAX_FDS =>
      if i < |mems| && mems[i] !in fds && mems[i] !in mems[..i] then mems[i] else NULL)
  }

  /** The file system and the tables of all processes, with the slots `rows`, are in order. */
  ghost predicate Ready(files: Files, tables: seq<Table>, rows: seq<seq<Ref>>)
    reads files, set t | t in tables, set t | t in tables :: t.slots
  {
    && files.Valid() && |rows| == |tables| && Booked(rows, files.fds)
    && (forall i, j :: 0 <= i < j < |tables| ==> tables[i] != tables[j] && tables[i].slots != tables[j].slots)
    && (forall i :: 0 <= i < |tables| ==> tables[i].Valid() && tables[i].slots[..] == rows[i])
  }

  /** The descriptor that the call takes out of a table without closing it. */
  ghost function Dropped(rows: seq<seq<Ref>>, call: Call): set<Ref> {
    if call.Dup2? && call.k < |rows| && Replaces(rows[call.k], call.from, call.to) then {rows[call.k][call.to]} else {}
  }

  lemma {:induction false} RowHeld(rows: seq<seq<Ref>>, fds: Fds, k: nat)
    requires Booked(rows, fds) && k < |rows|
    ensures Holds(fds, rows[k])
  {
  }

  /** A descriptor that is taken out of a table is one of it, and then one of none. */
  lemma {:induction false} DroppedIs(fds: Fds, s: seq<Ref>, i: nat, o: Fds)
    requires Holds(fds, s) && i < |s| && s[i] != NULL && s[i] in fds && o == Others(fds, s)[s[i] := fds[s[i]]]
    ensures Others(fds, s).Keys <= o.Keys && o.Keys - Others(fds, s).Keys == {s[i]}
  {
    assert s[i] in Owned(s);
  }

  /** A descriptor has come into the lowest free number. */
  ghost predicate Placed(s: seq<Ref>, s': seq<Ref>, i: nat) {
    LowestFree(s, i) && |s'| == |s| && s'[i] != NULL && s' == s[i := s'[i]]
  }

  /** What a call on a table makes of its slots. */
  ghost predicate RowAfter(s: seq<Ref>, call: Call, s': seq<Ref>) {
    match call
    case Close(_, fd) => s' == if fd < |s| then s[fd := NULL] else s
    case Dup2(_, from, to, _) => exists copy :: s' == Replaced(s, from, to, copy)
    case Pipe(_, _, _, _) => s' == s || exists s1, i, j :: Placed(s, s1, i) && Placed(s1, s', j)
    case _ => s' == s || exists i :: Placed(s, s', i)
  }

  lemma {:induction false} SameRow(s: seq<Ref>, call: Call)
    requires call.Open? || call.Dup? || call.Pipe?
    ensures RowAfter(s, call, s)
  {
  }

  lemma {:induction false} OneLess(s: seq<Ref>, call: Call, s': seq<Ref>)
    requires call.Close? && s' == if call.fd < |s| && s[call.fd] != NULL then s[call.fd := NULL] else s
    ensures RowAfter(s, call, s')
  {
    assert s' == if call.fd < |s| then s[call.fd := NULL] else s;
  }

  lemma {:induction false} OneMore(s: seq<Ref>, call: Call, i: nat, f: Ref)
    requires LowestFree(s, i) && f != NULL && (call.Open? || call.Dup?)
    ensures RowAfter(s, call, s[i := f])
  {
    assert Placed(s, s[i := f], i);
  }

  lemma {:induction false} TwoMore(s: seq<Ref>, call: Call, i: nat, f: Ref, j: nat, g: Ref)
    requires LowestFree(s, i) && f != NULL && LowestFree(s[i := f], j) && g != NULL && call.Pipe?
    ensures RowAfter(s, call, s[i := f][j := g])
  {
    var s1 := s[i := f];
    assert Placed(s, s1, i);
    assert Placed(s1, s1[j := g], j);
  }

  lemma {:induction false} OneReplaced(s: seq<Ref>, call: Call, copy: Ref)
    requires call.Dup2?
    ensures RowAfter(s, call, Replaced(s, call.from, call.to, copy))
  {
  }

  /** The same numbers are open. */
  ghost predicate SameOpen(s: seq<Ref>, d: seq<Ref>) {
    |d| == |s| && forall i :: 0 <= i < |s| ==> (d[i] == NULL <==> s[i] == NULL)
  }

  /** What a call makes of all tables. */
  ghost predicate Moved(rows: seq<seq<Ref>>, call: Call, rows': seq<seq<Ref>>) {
    if call.MakeDir? || call.Remove? || call.Enter? then rows' == rows
    else if call.Spawn? then rows' == rows + [seq(MAX_FDS, _ => NULL)]
    else if call.k >= |rows| then rows' == rows
    else if call.Fork? then rows' == rows || exists d :: SameOpen(rows[call.k], d) && rows' == rows + [d]
    else if call.Exit? then rows' == rows[..call.k] + rows[call.k + 1..]
    else exists s :: RowAfter(rows[call.k], call, s) && rows' == rows[call.k := s]
  }

  lemma {:induction false} RowSize(files: Files, tables: seq<Table>, rows: seq<seq<Ref>>, k: nat)
    requires Ready(files, tables, rows) && k < |tables|
    ensures |rows| == |tables| && |rows[k]| == MAX_FDS && tables[k].slots[..] == rows[k]
  {
    hide Files.Valid, Booked;
  }

  /** A call on the table of process `k`. */
  method ActTable(files: Files, tables: seq<Table>, k: nat, call: Call, ghost rows: seq<seq<Ref>>)
    returns (ghost rows': seq<seq<Ref>>, ghost nameless: bool)
    requires Ready(files, tables, rows) && ShortPath(call) && k < |tables|
    requires (call.Open? || call.Close? || call.Dup? || call.Dup2? || call.Pipe?) && call.k == k
    modifies files, tables[k], tables[k].slots
    ensures Ready(files, tables, rows') && rows' == rows[k := rows'[k]] && RowAfter(rows[k], call, rows'[k])
    ensures Lost(rows', files.fds) == Lost(rows, old(files.fds)) + Dropped(rows, call)
    ensures (nameless ==> Unnamed(call)) && (files.AllNamed() <==> old(files.AllNamed()) && !nameless)
  {
    hide Files.Valid, Table.Valid, Owned, Booked, Lost, Holds, Others, Nameful, Resolved, RowAfter, LowestFree, NoRoom,
         RoomForTwo, Replaced, Placeable;
    var t := tables[k];
    ghost var s, fds0 := rows[k], files.fds;
    RowHeld(rows, fds0, k);
    RowSize(files, tables, rows, k);
    nameless := false;
    match call {
      case Open(_, path, create, mem, fmem) =>
        var r;
        r, nameless := SysOpen(files, t, path, create, Unused(mem, files.refs), Unused(fmem, files.fds));
        if r.Done? {
          OneMore(s, call, r.value, Unused(fmem, fds0));
        } else {
          SameRow(s, call);
        }
      case Close(_, fd) =>
        var ok := SysClose(files, t, fd);
        OneLess(s, call, t.slots[..]);
      case Dup(_, fd, fmem) =>
        var r := SysDup(files, t, fd, Unused(fmem, files.fds));
        if r.Done? {
          OneMore(s, call, r.value, Unused(fmem, fds0));
        } else {
          SameRow(s, call);
        }
      case Dup2(_, from, to, fmem) =>
        var r := SysDup2(files, t, from, to, Unused(fmem, files.fds));
        OneReplaced(s, call, if r.Done? && from != to then Unused(fmem, fds0) else NULL);
        if Replaces(s, from, to) {
          DroppedIs(fds0, s, to, Others(files.fds, t.slots[..]));
        }
      case Pipe(_, mem, rmem, wmem) =>
        var ok, rfd, wfd := SysPipe(files, t, Unused(mem, files.refs), Unused(rmem, files.fds),
                                    if wmem == rmem then NULL else Unused(wmem, files.fds));
        if ok {
          TwoMore(s, call, rfd, rmem, wfd, wmem);
        } else {
          SameRow(s, call);
        }
    }
    BookedStep(rows, fds0, k, t.slots[..], files.fds);
    rows' := rows[k := t.slots[..]];
  }

  /** A call on paths alone. */
  method ActPath(files: Files, tables: seq<Table>, call: Call, ghost rows: seq<seq<Ref>>) returns (ghost nameless: bool)
    requires Ready(files, tables, rows) && ShortPath(call) && (call.MakeDir? || call.Remove? || call.Enter?)
    modifies files
    ensures Ready(files, tables, rows) && files.fds == old(files.fds)
    ensures (nameless ==> Unnamed(call)) && (files.AllNamed() <==> old(files.AllNamed()) && !nameless)
  {
    hide Files.Valid, Table.Valid, Booked, Nameful, Resolved, Files.Created, Files.Creatable;
    nameless := false;
    match call {
      case MakeDir(path, mem) =>
        var st := files.Mkdir(path, Unused(mem, files.refs));
        nameless := st == Status.Ok && path == "";
      case Remove(path) =>
        var st := files.Unlink(path);
      case Enter(path) =>
        var st := files.ChangeDir(path);
    }
  }

  lemma {:induction false} NoneOwned(s: seq<Ref>)
    requires forall i :: 0 <= i < |s| ==> s[i] == NULL
    ensures Owned(s) == {} && s == seq(|s|, _ => NULL)
  {
  }

  lemma {:induction false} CopiesAreNew(s: seq<Ref>, d: seq<Ref>, fds0: Fds, fds: Fds)
    requires Copies(s, d, fds0, fds, MAX_FDS)
    ensures Owned(d) !! fds0.Keys && SameOpen(s, d)
  {
    forall f | f in Owned(d) ensures f !in fds0 {
      var i :| 0 <= i < |d| && d[i] == f;
    }
  }

  lemma {:induction false} ExtendsKeys(fds0: Fds, fds: Fds, d: seq<Ref>)
    requires Extends(fds0, fds, d)
    ensures fds.Keys == fds0.Keys + Owned(d)
  {
  }

  /** A process begins, with an empty table or with a copy of another's, or ends. */
  method ActProcess(files: Files, tables: seq<Table>, call: Call, ghost rows: seq<seq<Ref>>)
    returns (tables': seq<Table>, ghost rows': seq<seq<Ref>>)
    requires Ready(files, tables, rows)
    requires call.Spawn? || ((call.Fork? || call.Exit?) && call.k < |tables|)
    modifies files`refs, files`fds, set t | t in tables :: t.slots
    ensures Ready(files, tables', rows') && Lost(rows', files.fds) == Lost(rows, old(files.fds))
    ensures Moved(rows, call, rows')
    ensures forall t :: t in tables' ==> t in tables || (fresh(t) && fresh(t.slots))
  {
    hide Files.Valid, Table.Valid, Owned, Booked, Lost, Copies, Extends;
    tables', rows' := tables, rows;
    ghost var fds0 := files.fds;
    match call {
      case Spawn =>
        var t := new Table();
        NoneOwned(t.slots[..]);
        BookedMore(rows, fds0, t.slots[..], fds0);
        tables', rows' := tables + [t], rows + [t.slots[..]];
      case Fork(k, mems) =>
        RowHeld(rows, fds0, k);
        NoNull(files);
        var t := Clone(tables[k], files, UnusedAll(mems, files.fds));
        if t != null {
          CopiesAreNew(rows[k], t.slots[..], fds0, files.fds);
          ExtendsKeys(fds0, files.fds, t.slots[..]);
          BookedMore(rows, fds0, t.slots[..], files.fds);
          tables', rows' := tables + [t], rows + [t.slots[..]];
        }
      case Exit(k) =>
        RowHeld(rows, fds0, k);
        Free(tables[k], files);
        BookedLess(rows, fds0, k);
        tables', rows' := tables[..k] + tables[k + 1..], rows[..k] + rows[k + 1..];
    }
  }

  /** How many calls are a `dup2`. */
  function Dup2s(calls: seq<Call>): nat {
    if calls == [] then 0 else Dup2s(calls[..|calls| - 1]) + if calls[|calls| - 1].Dup2? then 1 else 0
  }

  lemma {:induction false} SameRows(files: Files, tables: seq<Table>, rows: seq<seq<Ref>>)
    requires Ready(files, tables, rows)
    ensures |rows| == |tables|
  {
  }

  /** One call. */
  method Act(files: Files, tables: seq<Table>, call: Call, ghost rows: seq<seq<Ref>>)
    returns (tables': seq<Table>, ghost rows': seq<seq<Ref>>, ghost nameless: bool)
    requires Ready(files, tables, rows) && ShortPath(call)
    modifies files, set t | t in tables, set t | t in tables :: t.slots
    ensures Ready(files, tables', rows') && Moved(rows, call, rows')
    ensures Lost(rows', files.fds) == Lost(rows, old(files.fds)) + Dropped(rows, call)
    ensures forall t :: t in tables' ==> t in tables || (fresh(t) && fresh(t.slots))
    ensures (nameless ==> Unnamed(call)) && (files.AllNamed() <==> old(files.AllNamed()) && !nameless)
  {
    hide Ready, Lost, Nameful, Replaces;
    tables', rows', nameless := tables, rows, false;
    var alone := call.MakeDir? || call.Remove? || call.Enter? || call.Spawn?;
    if !alone && call.k >= |tables| {
      SameRows(files, tables, rows);
      return;
    }
    SameRows(files, tables, rows);
    if call.MakeDir? || call.Remove? || call.Enter? {
      nameless := ActPath(files, tables, call, rows);
    } else if call.Spawn? || call.Fork? || call.Exit? {
      tables', rows' := ActProcess(files, tables, call, rows);
    } else {
      rows', nameless := ActTable(files, tables, call.k, call, rows);
    }
  }

  /** The slots of all tables before and after each call. */
  ghost predicate IsHistory(history: seq<seq<seq<Ref>>>, calls: seq<Call>) {
    && |history| == |calls| + 1 && history[0] == []
    && (forall i :: 0 <= i < |calls| ==> Moved(history[i], calls[i], history[i + 1]))
  }

  /** What the calls have taken out of tables without closing it. */
  ghost function AllDropped(history: seq<seq<seq<Ref>>>, calls: seq<Call>): set<Ref>
    requires |history| > |calls|
  {
    if calls == [] then {}
    else AllDropped(history, calls[..|calls| - 1]) + Dropped(history[|calls| - 1], calls[|calls| - 1])
  }

  /** All descriptors are in tables exactly if no `dup2` met an open number; each loses one at most. */
  lemma {:induction false} NoneDroppedIff(history: seq<seq<seq<Ref>>>, calls: seq<Call>)
    requires |history| > |calls|
    ensures AllDropped(history, calls) == {} <==> forall i :: 0 <= i < |calls| ==> Dropped(history[i], calls[i]) == {}
    ensures |AllDropped(history, calls)| <= Dup2s(calls)
  {
    if calls != [] {
      var n := |calls| - 1;
      NoneDroppedIff(history, calls[..n]);
      var d := Dropped(history[n], calls[n]);
      if d != {} {
        var x :| d == {x};
        assert x in AllDropped(history, calls);
      }
    }
  }

  lemma {:induction false} SameDropped(history: seq<seq<seq<Ref>>>, longer: seq<seq<seq<Ref>>>, calls: seq<Call>)
    requires |calls| < |history| <= |longer| && longer[..|history|] == history
    ensures AllDropped(longer, calls) == AllDropped(history, calls)
  {
    if calls != [] {
      var n := |calls| - 1;
      SameDropped(history, longer, calls[..n]);
      assert longer[..|history|][n] == longer[n];
    }
  }

  lemma {:induction false} HistoryGrows(history: seq<seq<seq<Ref>>>, calls: seq<Call>, rows: seq<seq<Ref>>, i: nat)
    requires i < |calls| && IsHistory(history, calls[..i]) && Moved(history[i], calls[i], rows)
    ensures IsHistory(history + [rows], calls[..i + 1])
    ensures AllDropped(history + [rows], calls[..i + 1]) ==
            AllDropped(history, calls[..i]) + Dropped(history[i], calls[i])
  {
    hide Moved, Dropped;
    assert calls[..i + 1][..i] == calls[..i];
    SameDropped(history, history + [rows], calls[..i]);
  }

  lemma {:induction false} NobodyLeft(files: Files, tables: seq<Table>, rows: seq<seq<Ref>>)
    requires Ready(files, tables, rows)
    ensures files.Valid() && (tables == [] ==> files.fds.Keys == Lost(rows, files.fds))
  {
  }

  lemma {:induction false} FreshSystem(files: Files)
    requires files.Valid() && files.fds == map[] && files.nodes.Keys == {files.root}
    ensures Ready(files, [], []) && Lost([], files.fds) == {} && files.AllNamed()
  {
  }

  /** Every sequence of calls on a new file system, by any number of processes: the tree and the counts stay
      right, and no descriptor is in two slots; the descriptors that are in no slot are exactly those that a `dup2`
      took out of one. All nodes are named exactly if none was made with the empty path, and then every node's
      full path leads to it. */
  method Session(root: Ref, calls: seq<Call>)
    returns (files: Files, tables: seq<Table>, ghost history: seq<seq<seq<Ref>>>, ghost nameless: bool)
    requires root != NULL && forall i :: 0 <= i < |calls| ==> ShortPath(calls[i])
    ensures fresh(files) && IsHistory(history, calls) && Ready(files, tables, history[|calls|])
    ensures Lost(history[|calls|], files.fds) == AllDropped(history, calls)
    ensures tables == [] ==> files.fds.Keys == AllDropped(history, calls)
    ensures files.AllNamed() <==> !nameless
    ensures nameless ==> exists i :: 0 <= i < |calls| && Unnamed(calls[i])
    ensures !nameless ==> forall n :: n in files.nodes ==> files.At(files.PathTo(n)) == n
  {
    hide Ready, Lost, Moved, Dropped, Files.Valid, Nameful, Resolved;
    files := new Files(root);
    tables, history, nameless := [], [[]], false;
    FreshSystem(files);
    var i := 0;
    while i < |calls|
      invariant 0 <= i <= |calls| && fresh(files) && IsHistory(history, calls[..i])
      invariant Ready(files, tables, history[i]) && Lost(history[i], files.fds) == AllDropped(history, calls[..i])
      invariant forall t :: t in tables ==> fresh(t) && fresh(t.slots)
      invariant (files.AllNamed() <==> !nameless) && (nameless ==> exists j :: 0 <= j < i && Unnamed(calls[j]))
    {
      ghost var rows, made;
      tables, rows, made := Act(files, tables, calls[i], history[i]);
      HistoryGrows(history, calls, rows, i);
      history := history + [rows];
      nameless := nameless || made;
      i := i + 1;
    }
    assert calls[..i] == calls;
    NobodyLeft(files, tables, history[i]);
    if !nameless {
      forall n | n in files.nodes ensures files.At(files.PathTo(n)) == n {
        PrintedPathResolves(files, n);
      }
    }
  }

  /** A descriptor in no slot keeps its node counted, so that a file it names is never removed. */
  lemma {:induction false} LostIsBusy(files: Files, tables: seq<Table>, rows: seq<seq<Ref>>, f: Ref)
    requires Ready(files, tables, rows) && f in Lost(rows, files.fds)
    ensures files.fds[f] in files.refs && files.refs[files.fds[f]] > 0
  {
    hide TreeFit, Booked;
    NamedNode(files.fds, f, files.refs);
  }

  /** A process makes a pipe, duplicates one end over the other and ends: one descriptor is left. */
  method Dup2Loses() returns (files: Files)
    ensures files.Valid() && files.fds == map[4 := 2]
  {
    hide Files.Valid, Table.Valid, Owned;
    files := new Files(1);
    var t := new Table();
    NoneOwned(t.slots[..]);
    TwoFound(t.slots[..], 3, 4);
    var ok, rfd, wfd := SysPipe(files, t, 2, 3, 4);
    var r := SysDup2(files, t, rfd, wfd, 5);
    Free(t, files);
  }
}
