/** Descriptor tables: which descriptor each number stands for, and what cloning and freeing a table
    do to the reference counts. */
module FdTables {
  import opened VfsTree
  import opened VfsRefs
  import opened Vfs
  import opened Options

  const MAX_FDS: nat := 64
  const FIRST_FD: nat := 3

  datatype Result<T> = Done(value: T) | Failed(error: Status)

  /** How many slots are taken. */
  function Used(s: seq<Ref>): nat {
    if s == [] then 0 else Used(s[..|s| - 1]) + if s[|s| - 1] == NULL then 0 else 1
  }

  lemma {:induction false} UsedSet(s: seq<Ref>, i: nat, f: Ref)
    requires i < |s|
    ensures Used(s[i := f]) + (if s[i] == NULL then 0 else 1) == Used(s) + if f == NULL then 0 else 1
  {
    if i == |s| - 1 {
      assert s[i := f][..|s| - 1] == s[..|s| - 1];
    } else {
      assert s[i := f][..|s| - 1] == s[..|s| - 1][i := f];
      UsedSet(s[..|s| - 1], i, f);
    }
  }

  lemma {:induction false} UsedNone(s: seq<Ref>)
    requires forall i :: 0 <= i < |s| ==> s[i] == NULL
    ensures Used(s) == 0
  {
    if s != [] {
      UsedNone(s[..|s| - 1]);
    }
  }

  /** No descriptor is in two slots. */
  ghost predicate Apart(s: seq<Ref>) {
    forall i, j :: 0 <= i < j < |s| && s[i] != NULL ==> s[i] != s[j]
  }

  class Table {
    const slots: array<Ref>

    var count: nat

    ghost predicate Valid()
      reads this, slots
    {
      slots.Length == MAX_FDS && count == Used(slots[..]) && Apart(slots[..])
    }

    constructor ()
      ensures Valid() && fresh(slots) && slots.Length == MAX_FDS && forall i :: 0 <= i < MAX_FDS ==> slots[i] == NULL
    {
      slots := new Ref[MAX_FDS](_ => NULL);
      count := 0;
      new;
      UsedNone(slots[..]);
    }

    /** Puts a descriptor into the first free slot from 3 on. */
    method Install(f: Ref) returns (r: Result<nat>)
      requires Valid() && (f == NULL || f !in slots[..])
      modifies this, slots
      ensures Valid()
      ensures r == Failed(InvalidArgument) <==> f == NULL
      ensures r == Failed(OutOfFileDescriptors) <==>
        f != NULL && forall i :: FIRST_FD <= i < MAX_FDS ==> old(slots[i]) != NULL
      ensures r.Failed? ==> r.error == InvalidArgument || r.error == OutOfFileDescriptors
      ensures r.Failed? ==> slots[..] == old(slots[..])
      ensures r.Done? ==>
        FIRST_FD <= r.value < MAX_FDS && old(slots[r.value]) == NULL && slots[..] == old(slots[..])[r.value := f] &&
        forall i :: FIRST_FD <= i < r.value ==> old(slots[i]) != NULL
    {
      if f == NULL {
        return Failed(InvalidArgument);
      }
      var i := FIRST_FD;
      while i < MAX_FDS
        invariant FIRST_FD <= i <= MAX_FDS && forall j :: FIRST_FD <= j < i ==> slots[j] != NULL
      {
        if slots[i] == NULL {
          UsedSet(slots[..], i, f);
          slots[i] := f;
          count := count + 1;
          assert slots[..] == old(slots[..])[i := f];
          return Done(i);
        }
        i := i + 1;
      }
      return Failed(OutOfFileDescriptors);
    }

    method InstallAt(f: Ref, fd: int) returns (r: Result<nat>)
      requires Valid() && (f == NULL || f !in slots[..])
      modifies this, slots
      ensures Valid()
      ensures r == (if f == NULL || fd < 0 || fd >= MAX_FDS then Failed(InvalidArgument)
                    else if old(slots[fd]) != NULL then Failed(AlreadyExists) else Done(fd))
      ensures slots[..] == if r.Done? then old(slots[..])[r.value := f] else old(slots[..])
    {
      if f == NULL || fd < 0 || fd >= MAX_FDS {
        return Failed(InvalidArgument);
      }
      if slots[fd] != NULL {
        return Failed(AlreadyExists);
      }
      UsedSet(slots[..], fd, f);
      slots[fd] := f;
      count := count + 1;
      assert slots[..] == old(slots[..])[fd := f];
      return Done(fd);
    }

    method LookUp(fd: nat) returns (r: Result<Ref>)
      requires Valid()
      ensures r == if fd < MAX_FDS && slots[fd] != NULL then Done(slots[fd]) else Failed(BadFileDescriptor)
    {
      if fd >= MAX_FDS || slots[fd] == NULL {
        return Failed(BadFileDescriptor);
      }
      return Done(slots[fd]);
    }

    /** Takes a descriptor out of the table without closing it. */
    method Remove(fd: nat) returns (r: Result<Ref>)
      requires Valid()
      modifies this, slots
      ensures Valid()
      ensures r == if fd < MAX_FDS && old(slots[fd]) != NULL then Done(old(slots[fd])) else Failed(BadFileDescriptor)
      ensures slots[..] == if r.Done? then old(slots[..])[fd := NULL] else old(slots[..])
      ensures r.Done? ==> r.value !in slots[..]
    {
      if fd >= MAX_FDS || slots[fd] == NULL {
        return Failed(BadFileDescriptor);
      }
      var f := slots[fd];
      UsedSet(slots[..], fd, NULL);
      slots[fd] := NULL;
      count := count - 1;
      assert slots[..] == old(slots[..])[fd := NULL];
      return Done(f);
    }
  }

  // ---- tables and counts ----

  /** The table's descriptors. */
  ghost function Owned(s: seq<Ref>): set<Ref> { set f | f in s && f != NULL }

  lemma {:induction false} OwnedNone(s: seq<Ref>)
    ensures Owned(s[..0]) == {}
  {
  }

  lemma {:induction false} OwnedStep(s: seq<Ref>, i: nat)
    requires i < |s| && Apart(s)
    ensures Owned(s[..i + 1]) == Owned(s[..i]) + if s[i] == NULL then {} else {s[i]}
    ensures s[i] != NULL ==> s[i] !in Owned(s[..i]) && s[i] in Owned(s)
  {
  }

  /** Closes every descriptor of a table. */
  method Free(t: Table, files: Files)
    requires t.Valid() && files.Valid() && Owned(t.slots[..]) <= files.fds.Keys
    modifies files`refs, files`fds, t.slots
    ensures files.Valid() && files.fds == old(files.fds) - old(Owned(t.slots[..]))
    ensures files.refs.Keys == old(files.refs.Keys)
    ensures forall i :: 0 <= i < MAX_FDS ==> t.slots[i] == NULL
  {
    hide Files.Valid, Used;
    ghost var s := t.slots[..];
    OwnedNone(s);
    var i := 0;
    while i < MAX_FDS
      invariant 0 <= i <= MAX_FDS && files.Valid() && files.refs.Keys == old(files.refs.Keys)
      invariant files.fds == old(files.fds) - Owned(s[..i])
      invariant forall j :: 0 <= j < i ==> t.slots[j] == NULL
      invariant forall j :: i <= j < MAX_FDS ==> t.slots[j] == s[j]
    {
      OwnedStep(s, i);
      if t.slots[i] != NULL {
        files.Close(t.slots[i]);
        t.slots[i] := NULL;
      }
      i := i + 1;
    }
    assert s[..MAX_FDS] == s;
  }

  /** The first `n` slots of `d` are copies of those of `s`: new descriptors for the same nodes. */
  ghost predicate Copies(s: seq<Ref>, d: seq<Ref>, fds0: Fds, fds: Fds, n: nat) {
    |s| == |d| == MAX_FDS && n <= MAX_FDS && (forall i :: n <= i < MAX_FDS ==> d[i] == NULL) &&
    forall i :: 0 <= i < n ==>
      (d[i] == NULL <==> s[i] == NULL) &&
      (d[i] != NULL ==> d[i] !in fds0 && s[i] in fds0 && d[i] in fds && fds[d[i]] == fds0[s[i]])
  }

  /** `fds` is `fds0` with the descriptors of `d`. */
  ghost predicate Extends(fds0: Fds, fds: Fds, d: seq<Ref>) {
    fds.Keys == fds0.Keys + Owned(d) && forall f :: f in fds0 ==> f in fds && fds[f] == fds0[f]
  }

  /** What holds while a table is cloned: the first `n` slots are copied, into the memory given. */
  ghost predicate Cloning(s: seq<Ref>, d: seq<Ref>, fds0: Fds, fds: Fds, mem: seq<Ref>, n: nat) {
    |mem| == MAX_FDS && Apart(mem) && (forall i :: 0 <= i < MAX_FDS ==> mem[i] !in fds0) && Owned(s) <= fds0.Keys &&
    Copies(s, d, fds0, fds, n) && Extends(fds0, fds, d) && Apart(d) &&
    (forall i :: 0 <= i < n && d[i] != NULL ==> d[i] == mem[i])
  }

  lemma {:induction false} CloneStart(s: seq<Ref>, d: seq<Ref>, fds0: Fds, mem: seq<Ref>)
    requires |s| == |d| == |mem| == MAX_FDS && (forall i :: 0 <= i < MAX_FDS ==> d[i] == NULL)
    requires Apart(mem) && (forall i :: 0 <= i < MAX_FDS ==> mem[i] !in fds0) && Owned(s) <= fds0.Keys
    ensures Cloning(s, d, fds0, fds0, mem, 0)
  {
  }

  lemma {:induction false} CloneReady(s: seq<Ref>, d: seq<Ref>, fds0: Fds, fds: Fds, mem: seq<Ref>, i: nat)
    requires Cloning(s, d, fds0, fds, mem, i) && i < MAX_FDS
    ensures |s| == |d| == |mem| == MAX_FDS && d[i] == NULL && Apart(d)
    ensures s[i] == NULL ==> Cloning(s, d, fds0, fds, mem, i + 1)
    ensures s[i] != NULL ==> s[i] in fds && (mem[i] != NULL ==> mem[i] !in fds)
    ensures Owned(d) <= fds.Keys
  {
  }

  lemma {:induction false} CloneStep(s: seq<Ref>, d: seq<Ref>, fds0: Fds, fds: Fds, mem: seq<Ref>, i: nat)
    requires Cloning(s, d, fds0, fds, mem, i) && i < MAX_FDS && s[i] in fds && s[i] != NULL && mem[i] != NULL
    requires mem[i] !in fds
    requires |d| == |mem| == MAX_FDS
    ensures Cloning(s, d[i := mem[i]], fds0, fds[mem[i] := fds[s[i]]], mem, i + 1)
    ensures Apart(d[i := mem[i]])
  {
    var d', fds' := d[i := mem[i]], fds[mem[i] := fds[s[i]]];
    assert s[i] in Owned(s) && s[i] in fds0;
    forall f ensures f in Owned(d') <==> f in Owned(d) || f == mem[i] {
      assert d'[i] == mem[i] && d[i] == NULL;
      if f in Owned(d) {
        var j :| 0 <= j < MAX_FDS && d[j] == f;
        assert d'[j] == f;
      }
    }
    forall j | 0 <= j < MAX_FDS && d[j] != NULL ensures d[j] != mem[i] {
      assert d[j] in Owned(d);
    }
  }

  lemma {:induction false} CloneUndone(s: seq<Ref>, d: seq<Ref>, fds0: Fds, fds: Fds, mem: seq<Ref>, n: nat)
    requires Cloning(s, d, fds0, fds, mem, n)
    ensures fds - Owned(d) == fds0
  {
  }

  lemma {:induction false} CloneDone(s: seq<Ref>, d: seq<Ref>, fds0: Fds, fds: Fds, mem: seq<Ref>)
    requires Cloning(s, d, fds0, fds, mem, MAX_FDS)
    ensures Copies(s, d, fds0, fds, MAX_FDS) && Extends(fds0, fds, d)
  {
  }

  lemma {:induction false} ValidCounts(files: Files)
    requires files.Valid()
    ensures RefsFit(files.refs, files.fds)
  {
  }

  lemma {:induction false} SameCounts(refs: Refs, files: Files, fds: Fds)
    requires files.Valid() && files.fds == fds && RefsFit(refs, fds) && refs.Keys == files.refs.Keys
    ensures files.refs == refs
  {
  }

  /** Duplicates every descriptor of a table into a new one; `mem` is the memory for each. A failure
      undoes what was duplicated. */
  method Clone(src: Table, files: Files, mem: seq<Ref>) returns (dst: Table?)
    requires src.Valid() && files.Valid() && Owned(src.slots[..]) <= files.fds.Keys
    requires |mem| == MAX_FDS && Apart(mem) && forall i :: 0 <= i < MAX_FDS ==> mem[i] !in files.fds
    modifies files`refs, files`fds
    ensures files.Valid() && src.slots[..] == old(src.slots[..])
    ensures dst == null <==> exists i :: 0 <= i < MAX_FDS && src.slots[i] != NULL && mem[i] == NULL
    ensures dst == null ==> files.fds == old(files.fds) && files.refs == old(files.refs)
    ensures dst != null ==>
      fresh(dst) && fresh(dst.slots) && dst.Valid() &&
      Copies(src.slots[..], dst.slots[..], old(files.fds), files.fds, MAX_FDS) &&
      Extends(old(files.fds), files.fds, dst.slots[..])
  {
    hide Files.Valid, Used, Cloning, Copies, Extends, Owned, RefsFit;
    ValidCounts(files);
    var t := new Table();
    ghost var s, fds0 := src.slots[..], files.fds;
    CloneStart(s, t.slots[..], fds0, mem);
    var i := 0;
    while i < MAX_FDS
      invariant 0 <= i <= MAX_FDS && files.Valid() && files.refs.Keys == old(files.refs.Keys)
      invariant t.Valid() && src.slots[..] == s && fresh(t.slots) && fresh(t)
      invariant Cloning(s, t.slots[..], fds0, files.fds, mem, i)
      invariant forall j :: 0 <= j < i && s[j] != NULL ==> mem[j] != NULL
    {
      ghost var d, fds := t.slots[..], files.fds;
      CloneReady(s, d, fds0, fds, mem, i);
      if src.slots[i] != NULL {
        var copy := files.Dup(src.slots[i], mem[i]);
        if copy == NULL {
          Free(t, files);
          CloneUndone(s, d, fds0, fds, mem, i);
          SameCounts(old(files.refs), files, fds0);
          return null;
        }
        UsedSet(d, i, copy);
        CloneStep(s, d, fds0, fds, mem, i);
        t.slots[i] := copy;
        t.count := t.count + 1;
        assert t.slots[..] == d[i := copy];
      }
      i := i + 1;
    }
    CloneDone(s, t.slots[..], fds0, files.fds, mem);
    return t;
  }
}
