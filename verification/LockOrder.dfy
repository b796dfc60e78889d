/** The read-write locks of TecnicoFS: calls that take them in the order of their ranks cannot deadlock. */
module LockOrder {
  import opened CTypes

  datatype LockId = InodeLock(inumber: nat) | FileLock(handle: nat) | InodeTable | DirTable | FileTable | DataTable {
    /** An inode's lock comes before an open file's, both before the tables', and the data table's last. */
    function Rank(): nat {
      match this
      case InodeLock(_) => 0
      case FileLock(_) => 1
      case DataTable => 3
      case _ => 2
    }
  }

  datatype Mode = Read | Write

  /** Change: what the lock of an inode in use or of an open file protects is assigned; an inode is freed. */
  datatype Action = Acquire(lock: LockId, mode: Mode) | Release(lock: LockId) | Change(lock: LockId) {
    /** It takes or releases this lock. */
    predicate On(own: Option<LockId>) { !Change? && own == Some(lock) }
  }

  type Held = map<LockId, Mode>

  predicate Below(held: Held, rank: nat) { forall l :: l in held ==> l.Rank() < rank }

  /** The locks held after an action; None when it breaks the order or releases what is not held. */
  function Do(a: Action, held: Held): Option<Held> {
    match a
    case Acquire(l, m) => if Below(held, l.Rank()) then Some(held[l := m]) else None
    case Release(l) => if l in held then Some(held - {l}) else None
    case Change(_) => Some(held)
  }

  function Exec(p: seq<Action>, held: Held): Option<Held> {
    if p == [] then Some(held)
    else if Do(p[0], held).None? then None
    else Exec(p[1..], Do(p[0], held).value)
  }

  lemma {:induction false} ExecAppend(p: seq<Action>, q: seq<Action>, held: Held)
    ensures Exec(p + q, held) == if Exec(p, held).None? then None else Exec(q, Exec(p, held).value)
  {
    if p == [] {
      assert p + q == q;
    } else {
      assert (p + q)[0] == p[0] && (p + q)[1..] == p[1..] + q;
      if Do(p[0], held).Some? {
        ExecAppend(p[1..], q, Do(p[0], held).value);
      }
    }
  }

  /** Takes locks in rank order only, and gives them all back. */
  predicate Ordered(p: seq<Action>) { Exec(p, map[]) == Some(map[]) }

  // ---- threads ----

  datatype Thread = Thread(program: seq<Action>, pc: nat) {
    predicate Valid() { pc <= |program| && Ordered(program) }

    function Holds(): Held
      requires Valid()
    {
      HeldInOrder(program, pc);
      Exec(program[..pc], map[]).value
    }
  }

  lemma HeldInOrder(p: seq<Action>, pc: nat)
    requires pc <= |p| && Ordered(p)
    ensures Exec(p[..pc], map[]).Some? && Exec(p[pc..], Exec(p[..pc], map[]).value) == Some(map[])
  {
    assert p == p[..pc] + p[pc..];
    ExecAppend(p[..pc], p[pc..], map[]);
  }

  ghost predicate AllValid(ts: seq<Thread>) { forall t :: 0 <= t < |ts| ==> ts[t].Valid() }

  /** Thread u holds lock l against thread t's wish. */
  predicate Blocks(ts: seq<Thread>, u: nat, t: nat, l: LockId, m: Mode)
    requires u < |ts| && ts[u].Valid()
  {
    u != t && l in ts[u].Holds() && (m.Write? || ts[u].Holds()[l].Write?)
  }

  ghost predicate CanStep(ts: seq<Thread>, t: nat)
    requires t < |ts| && AllValid(ts)
  {
    && ts[t].pc < |ts[t].program|
    && match ts[t].program[ts[t].pc]
       case Release(_) => true
       case Change(_) => true
       case Acquire(l, m) => forall u: nat :: u < |ts| ==> !Blocks(ts, u, t, l, m)
  }

  /** The rank of the lock a thread is about to take, 4 when it is about to do something else. */
  function Wants(th: Thread): nat {
    if th.pc < |th.program| && th.program[th.pc].Acquire? then th.program[th.pc].lock.Rank() else 4
  }

  /** A thread that holds a lock has something left to do, and wants no lock of the same or a lower rank. */
  lemma HolderGoesUp(th: Thread, l: LockId)
    requires th.Valid() && l in th.Holds()
    ensures th.pc < |th.program| && l.Rank() < Wants(th)
  {
    HeldInOrder(th.program, th.pc);
    var rest := th.program[th.pc..];
    assert rest != [] && rest[0] == th.program[th.pc];
    assert Do(rest[0], th.Holds()).Some?;
  }

  /** From a thread that cannot step, going to whoever blocks it leads upwards in rank to one that can. */
  lemma {:induction false} SomeoneCanStep(ts: seq<Thread>, t: nat) returns (u: nat)
    requires AllValid(ts) && t < |ts| && ts[t].pc < |ts[t].program|
    ensures u < |ts| && CanStep(ts, u)
    decreases 4 - Wants(ts[t])
  {
    if CanStep(ts, t) {
      return t;
    }
    var l := ts[t].program[ts[t].pc].lock;
    var v: nat :| v < |ts| && Blocks(ts, v, t, l, ts[t].program[ts[t].pc].mode);
    HolderGoesUp(ts[v], l);
    u := SomeoneCanStep(ts, v);
  }

  /** No deadlock: however many threads there are and wherever they are, if one is unfinished, one can step. */
  lemma DeadlockFree(ts: seq<Thread>)
    requires AllValid(ts) && exists t :: 0 <= t < |ts| && ts[t].pc < |ts[t].program|
    ensures exists u: nat :: u < |ts| && CanStep(ts, u)
  {
    var t :| 0 <= t < |ts| && ts[t].pc < |ts[t].program|;
    var u := SomeoneCanStep(ts, t);
  }

  // ---- pieces of programs ----

  /** Leaves the held locks as they are, whatever they are, as long as their ranks are below `rank`. */
  ghost predicate Neutral(p: seq<Action>, rank: nat) {
    forall held: Held :: Below(held, rank) ==> Exec(p, held) == Some(held)
  }

  lemma NeutralSeq(p: seq<Action>, q: seq<Action>, rank: nat)
    requires Neutral(p, rank) && Neutral(q, rank)
    ensures Neutral(p + q, rank)
  {
    forall held: Held | Below(held, rank) ensures Exec(p + q, held) == Some(held) {
      ExecAppend(p, q, held);
    }
  }

  lemma NeutralLower(p: seq<Action>, rank: nat, lower: nat)
    requires Neutral(p, rank) && lower <= rank
    ensures Neutral(p, lower)
  {
    forall held: Held | Below(held, lower) ensures Exec(p, held) == Some(held) {
      assert Below(held, rank);
    }
  }

  /** A critical section. */
  function Around(l: LockId, m: Mode, body: seq<Action>): seq<Action> {
    [Acquire(l, m)] + body + [Release(l)]
  }

  lemma NeutralAround(l: LockId, m: Mode, body: seq<Action>)
    requires Neutral(body, l.Rank() + 1)
    ensures Neutral(Around(l, m, body), l.Rank())
  {
    forall held: Held | Below(held, l.Rank()) ensures Exec(Around(l, m, body), held) == Some(held) {
      var inside := held[l := m];
      assert Below(inside, l.Rank() + 1);
      assert Exec([Acquire(l, m)], held) == Some(inside);
      assert inside - {l} == held;
      assert Exec([Release(l)], inside) == Some(held);
      ExecAppend([Acquire(l, m)], body, held);
      ExecAppend([Acquire(l, m)] + body, [Release(l)], held);
    }
  }

  /** Two locks of rising rank, released in the order they were taken. */
  function AroundBoth(l: LockId, k: LockId, m: Mode, body: seq<Action>): seq<Action> {
    [Acquire(l, m), Acquire(k, m)] + body + [Release(l), Release(k)]
  }

  lemma NeutralAroundBoth(l: LockId, k: LockId, m: Mode, body: seq<Action>)
    requires l.Rank() < k.Rank() && Neutral(body, k.Rank() + 1)
    ensures Neutral(AroundBoth(l, k, m, body), l.Rank())
  {
    forall held: Held | Below(held, l.Rank()) ensures Exec(AroundBoth(l, k, m, body), held) == Some(held) {
      var first := held[l := m];
      var inside := first[k := m];
      assert Below(first, k.Rank()) && Below(inside, k.Rank() + 1);
      var take, give := [Acquire(l, m), Acquire(k, m)], [Release(l), Release(k)];
      assert take[1..] == [Acquire(k, m)] && give[1..] == [Release(k)];
      assert Exec([Acquire(k, m)], first) == Some(inside);
      assert Exec(take, held) == Some(inside);
      assert (inside - {l}) - {k} == held;
      assert Exec([Release(k)], inside - {l}) == Some(held);
      assert Exec(give, inside) == Some(held);
      ExecAppend(take, body, held);
      ExecAppend(take + body, give, held);
    }
  }

  // ---- the locks each call takes ----

  function Table(l: LockId, m: Mode): seq<Action> { Around(l, m, []) }

  /** inode_get */
  const INODE_GET := Table(InodeTable, Read)
  /** inode_alloc, the only lock of inode_create(T_FILE) */
  const INODE_ALLOC := Table(InodeTable, Write)
  /** find_in_dir, with data_block_get inside */
  const FIND_IN_DIR := Around(DirTable, Read, Table(DataTable, Read))

  /** add_dir_entry, which looks at the block only when the name is valid */
  function AddDirEntry(validName: bool): seq<Action> {
    Around(DirTable, Write, if validName then Table(DataTable, Read) else [])
  }

  /** clear_dir_entry */
  const CLEAR_DIR_ENTRY := Around(DirTable, Write, Table(DataTable, Read))

  /** inode_delete, with data_block_free inside when the inode has a block */
  function InodeDelete(hasBlock: bool): seq<Action> {
    Around(InodeTable, Write, if hasBlock then Table(DataTable, Write) else [])
  }

  /** A file is truncated: its block is given back and its size set to 0. */
  function Truncation(i: nat): seq<Action> { Table(DataTable, Write) + [Change(InodeLock(i))] }

  /** What tfs_write does under its two locks: a block for an empty file, the bytes, the cursor and the size. */
  function WriteBody(i: nat, h: nat, allocates: bool, full: bool): seq<Action> {
    When(allocates, Table(DataTable, Write) + When(!full, [Change(InodeLock(i))])) +
    When(!(allocates && full), Table(DataTable, Read) + WriteEnd(i, h))
  }

  function WriteEnd(i: nat, h: nat): seq<Action> { [Change(FileLock(h))] + [Change(InodeLock(i))] }

  /** What tfs_read does under its two locks: the bytes and the cursor. */
  function ReadBody(h: nat): seq<Action> { Table(DataTable, Read) + [Change(FileLock(h))] }

  /** What tfs_unlink does once it has the inode: the name goes, and the count drops or the inode is freed. */
  function UnlinkBody(i: nat, deletes: bool, hasBlock: bool): seq<Action> {
    CLEAR_DIR_ENTRY + ([Change(InodeLock(i))] + When(deletes, InodeDelete(hasBlock)))
  }

  /** What tfs_link does once it has the inode: the count rises, and the new name is entered. */
  function LinkBody(i: nat, validName: bool): seq<Action> { [Change(InodeLock(i))] + AddDirEntry(validName) }

  function When(c: bool, p: seq<Action>): seq<Action> { if c then p else [] }

  /** get_path_recursive over a chain of so many links, with a file or nothing at its end */
  function GetPath(hops: nat, found: bool): seq<Action> {
    if hops == 0 then When(found, INODE_GET)
    else INODE_GET + Table(DataTable, Read) + INODE_GET + FIND_IN_DIR + GetPath(hops - 1, found)
  }

  /** The branches a call may take. */
  datatype Branch =
    | OpenInvalid
    | OpenFile(inumber: nat, truncates: bool)
    | OpenLink(inumber: nat, hops: nat, target: nat, truncates: bool)
    | OpenDangling(inumber: nat, hops: nat)
    | OpenCreates(inodeFree: bool, validName: bool, added: bool)
    | OpenAbsent
    | LinkInvalid
    | LinkAbsent
    | LinkTo(inumber: nat, isLink: bool, validName: bool)
    | CloseInvalid
    | CloseFile(handle: nat)
    | WriteInvalid
    | WriteFile(inumber: nat, handle: nat, writes: bool, allocates: bool, full: bool)
    | ReadInvalid
    | ReadFile(inumber: nat, handle: nat, copies: bool)
    | UnlinkInvalid
    | UnlinkAbsent
    | UnlinkFile(inumber: nat, deletes: bool, hasBlock: bool)

  /** The lock operations of tfs_open, tfs_link, tfs_close, tfs_write, tfs_read and tfs_unlink, branch by branch. */
  function Program(b: Branch): seq<Action> {
    match b
    case OpenInvalid => []
    case OpenFile(i, truncates) =>
      INODE_GET + FIND_IN_DIR + Around(InodeLock(i), Write, INODE_GET + When(truncates, Truncation(i)))
        + Table(FileTable, Write)
    case OpenLink(i, hops, j, truncates) =>
      INODE_GET + FIND_IN_DIR + Around(InodeLock(i), Write, INODE_GET + GetPath(hops, true)) +
      Around(InodeLock(j), Read, INODE_GET + When(truncates, Truncation(j))) + Table(FileTable, Write)
    case OpenDangling(i, hops) =>
      INODE_GET + FIND_IN_DIR + Around(InodeLock(i), Write, INODE_GET + GetPath(hops, false))
    case OpenCreates(inodeFree, validName, added) =>
      INODE_GET + FIND_IN_DIR + INODE_ALLOC +
      When(inodeFree, AddDirEntry(validName) + if added then Table(FileTable, Write) else InodeDelete(false))
    case OpenAbsent => INODE_GET + FIND_IN_DIR
    case LinkInvalid => INODE_GET
    case LinkAbsent => INODE_GET + FIND_IN_DIR
    case LinkTo(i, isLink, validName) =>
      INODE_GET + FIND_IN_DIR + Around(InodeLock(i), Write, INODE_GET + When(!isLink, LinkBody(i, validName)))
    case CloseInvalid => Table(FileTable, Read)
    case CloseFile(h) => Table(FileTable, Read) + Around(FileLock(h), Write, Table(FileTable, Write))
    case WriteInvalid => Table(FileTable, Read)
    case WriteFile(i, h, writes, allocates, full) =>
      Table(FileTable, Read) +
      AroundBoth(InodeLock(i), FileLock(h), Write,
        INODE_GET + When(writes, WriteBody(i, h, allocates, full)))
    case ReadInvalid => Table(FileTable, Read)
    case ReadFile(i, h, copies) =>
      Table(FileTable, Read)
        + AroundBoth(InodeLock(i), FileLock(h), Read, INODE_GET + When(copies, ReadBody(h)))
    case UnlinkInvalid => INODE_GET
    case UnlinkAbsent => INODE_GET + FIND_IN_DIR
    case UnlinkFile(i, deletes, hasBlock) =>
      INODE_GET + FIND_IN_DIR
        + Around(InodeLock(i), Write, INODE_GET + UnlinkBody(i, deletes, hasBlock))
  }

  lemma NeutralTable(l: LockId, m: Mode, rank: nat)
    requires rank <= l.Rank()
    ensures Neutral(Table(l, m), rank)
  {
    NeutralAround(l, m, []);
    NeutralLower(Table(l, m), l.Rank(), rank);
  }

  /** A table's lock, and the data table's inside it or not. */
  lemma NeutralOverData(l: LockId, m: Mode, inner: bool, n: Mode)
    requires l.Rank() == 2
    ensures Neutral(Around(l, m, if inner then Table(DataTable, n) else []), 2)
  {
    NeutralTable(DataTable, n, 3);
    NeutralAround(l, m, if inner then Table(DataTable, n) else []);
  }

  /** What runs under an inode's lock, or under no lock: pieces over the tables. */
  lemma NeutralPieces(validName: bool, hasBlock: bool)
    ensures Neutral(INODE_GET, 2) && Neutral(INODE_ALLOC, 2) && Neutral(FIND_IN_DIR, 2) && Neutral(CLEAR_DIR_ENTRY, 2)
    ensures Neutral(AddDirEntry(validName), 2) && Neutral(InodeDelete(hasBlock), 2) && Neutral([], 2)
    ensures forall m :: Neutral(Table(DataTable, m), 2) && Neutral(Table(FileTable, m), 2)
  {
    NeutralTable(InodeTable, Read, 2);
    NeutralTable(InodeTable, Write, 2);
    NeutralOverData(DirTable, Read, true, Read);
    NeutralOverData(DirTable, Write, true, Read);
    NeutralOverData(DirTable, Write, validName, Read);
    NeutralOverData(InodeTable, Write, hasBlock, Write);
    forall m ensures Neutral(Table(DataTable, m), 2) && Neutral(Table(FileTable, m), 2) {
      NeutralTable(DataTable, m, 2);
      NeutralTable(FileTable, m, 2);
    }
  }

  lemma NeutralChange(l: LockId, rank: nat)
    ensures Neutral([Change(l)], rank)
  {
    forall held: Held | Below(held, rank) ensures Exec([Change(l)], held) == Some(held) {
      assert [Change(l)][1..] == [] && Exec([], held) == Some(held);
    }
  }

  /** The pieces that change an inode or an open file. */
  lemma NeutralBodies(i: nat, h: nat, validName: bool, allocates: bool, full: bool, deletes: bool, hasBlock: bool)
    ensures Neutral(Truncation(i), 2) && Neutral([Change(InodeLock(i))] + AddDirEntry(validName), 2)
    ensures Neutral(WriteBody(i, h, allocates, full), 2) && Neutral(UnlinkBody(i, deletes, hasBlock), 2)
    ensures Neutral(ReadBody(h), 2)
  {
    hide Neutral, Exec, Around, AroundBoth, Table;
    NeutralPieces(validName, hasBlock);
    NeutralChange(InodeLock(i), 2);
    NeutralChange(FileLock(h), 2);
    NeutralSeq(Table(DataTable, Write), [Change(InodeLock(i))], 2);
    NeutralSeq([Change(InodeLock(i))], AddDirEntry(validName), 2);
    NeutralSeq(Table(DataTable, Write), When(!full, [Change(InodeLock(i))]), 2);
    NeutralSeq([Change(FileLock(h))], [Change(InodeLock(i))], 2);
    NeutralSeq(Table(DataTable, Read), WriteEnd(i, h), 2);
    NeutralSeq(Table(DataTable, Read), [Change(FileLock(h))], 2);
    NeutralSeq(When(allocates, Table(DataTable, Write) + When(!full, [Change(InodeLock(i))])),
      When(!(allocates && full), Table(DataTable, Read) + WriteEnd(i, h)), 2);
    NeutralSeq([Change(InodeLock(i))], When(deletes, InodeDelete(hasBlock)), 2);
    NeutralSeq(CLEAR_DIR_ENTRY, [Change(InodeLock(i))] + When(deletes, InodeDelete(hasBlock)), 2);
  }

  lemma {:induction false} NeutralGetPath(hops: nat, found: bool)
    ensures Neutral(GetPath(hops, found), 2)
  {
    hide Neutral, Exec, Around, AroundBoth, Table;
    NeutralPieces(true, true);
    if hops > 0 {
      NeutralGetPath(hops - 1, found);
      NeutralSeq(INODE_GET, Table(DataTable, Read), 2);
      NeutralSeq(INODE_GET + Table(DataTable, Read), INODE_GET, 2);
      NeutralSeq(INODE_GET + Table(DataTable, Read) + INODE_GET, FIND_IN_DIR, 2);
      NeutralSeq(INODE_GET + Table(DataTable, Read) + INODE_GET + FIND_IN_DIR, GetPath(hops - 1, found), 2);
    }
  }

  /** A section under an inode's lock that opens with inode_get. */
  lemma NeutralInode(i: nat, m: Mode, rest: seq<Action>)
    requires Neutral(rest, 2)
    ensures Neutral(Around(InodeLock(i), m, INODE_GET + rest), 0)
  {
    hide Neutral, Exec, Around, AroundBoth, Table;
    NeutralPieces(true, true);
    NeutralSeq(INODE_GET, rest, 2);
    NeutralLower(INODE_GET + rest, 2, 1);
    NeutralAround(InodeLock(i), m, INODE_GET + rest);
  }

  lemma NeutralLookup(rest: seq<Action>)
    requires Neutral(rest, 0)
    ensures Neutral(INODE_GET + FIND_IN_DIR + rest, 0)
  {
    hide Neutral, Exec, Around, AroundBoth, Table;
    NeutralPieces(true, true);
    NeutralSeq(INODE_GET, FIND_IN_DIR, 2);
    NeutralLower(INODE_GET + FIND_IN_DIR, 2, 0);
    NeutralSeq(INODE_GET + FIND_IN_DIR, rest, 0);
  }

  lemma NeutralOpenFile(i: nat, truncates: bool)
    ensures Neutral(Program(OpenFile(i, truncates)), 0)
  {
    hide Neutral, Exec, Around, AroundBoth, Table, Truncation;
    NeutralPieces(true, true);
    NeutralBodies(i, 0, true, true, true, true, true);
    var section := Around(InodeLock(i), Write, INODE_GET + When(truncates, Truncation(i)));
    NeutralInode(i, Write, When(truncates, Truncation(i)));
    NeutralLookup(section);
    NeutralLower(Table(FileTable, Write), 2, 0);
    NeutralSeq(INODE_GET + FIND_IN_DIR + section, Table(FileTable, Write), 0);
  }

  lemma NeutralOpenLink(i: nat, hops: nat, j: nat, truncates: bool)
    ensures Neutral(Program(OpenLink(i, hops, j, truncates)), 0)
  {
    hide Neutral, Exec, Around, AroundBoth, Table, Truncation;
    NeutralPieces(true, true);
    NeutralBodies(j, 0, true, true, true, true, true);
    NeutralGetPath(hops, true);
    var first := Around(InodeLock(i), Write, INODE_GET + GetPath(hops, true));
    var second := Around(InodeLock(j), Read, INODE_GET + When(truncates, Truncation(j)));
    NeutralInode(i, Write, GetPath(hops, true));
    NeutralInode(j, Read, When(truncates, Truncation(j)));
    NeutralLookup(first);
    NeutralSeq(INODE_GET + FIND_IN_DIR + first, second, 0);
    NeutralLower(Table(FileTable, Write), 2, 0);
    NeutralSeq(INODE_GET + FIND_IN_DIR + first + second, Table(FileTable, Write), 0);
  }

  lemma NeutralOpenCreates(inodeFree: bool, validName: bool, added: bool)
    ensures Neutral(Program(OpenCreates(inodeFree, validName, added)), 0)
  {
    hide Neutral, Exec, Around, AroundBoth, Table;
    NeutralPieces(validName, false);
    var last := if added then Table(FileTable, Write) else InodeDelete(false);
    NeutralSeq(AddDirEntry(validName), last, 2);
    NeutralSeq(INODE_GET, FIND_IN_DIR, 2);
    NeutralSeq(INODE_GET + FIND_IN_DIR, INODE_ALLOC, 2);
    NeutralSeq(INODE_GET + FIND_IN_DIR + INODE_ALLOC, When(inodeFree, AddDirEntry(validName) + last), 2);
    NeutralLower(Program(OpenCreates(inodeFree, validName, added)), 2, 0);
  }

  lemma NeutralWriteFile(i: nat, h: nat, writes: bool, allocates: bool, full: bool)
    ensures Neutral(Program(WriteFile(i, h, writes, allocates, full)), 0)
  {
    hide Neutral, Exec, Around, AroundBoth, Table, WriteBody;
    NeutralPieces(true, true);
    NeutralBodies(i, h, true, allocates, full, true, true);
    var body := INODE_GET + When(writes, WriteBody(i, h, allocates, full));
    NeutralSeq(INODE_GET, When(writes, WriteBody(i, h, allocates, full)), 2);
    NeutralAroundBoth(InodeLock(i), FileLock(h), Write, body);
    NeutralLower(Table(FileTable, Read), 2, 0);
    NeutralSeq(Table(FileTable, Read), AroundBoth(InodeLock(i), FileLock(h), Write, body), 0);
  }

  lemma NeutralReadFile(i: nat, h: nat, copies: bool)
    ensures Neutral(Program(ReadFile(i, h, copies)), 0)
  {
    hide Neutral, Exec, Around, AroundBoth, Table, ReadBody;
    NeutralPieces(true, true);
    NeutralBodies(i, h, true, true, true, true, true);
    var body := INODE_GET + When(copies, ReadBody(h));
    NeutralSeq(INODE_GET, When(copies, ReadBody(h)), 2);
    NeutralAroundBoth(InodeLock(i), FileLock(h), Read, body);
    NeutralLower(Table(FileTable, Read), 2, 0);
    NeutralSeq(Table(FileTable, Read), AroundBoth(InodeLock(i), FileLock(h), Read, body), 0);
  }

  lemma NeutralUnlinkFile(i: nat, deletes: bool, hasBlock: bool)
    ensures Neutral(Program(UnlinkFile(i, deletes, hasBlock)), 0)
  {
    hide Neutral, Exec, Around, AroundBoth, Table, UnlinkBody;
    NeutralBodies(i, 0, true, true, true, deletes, hasBlock);
    NeutralInode(i, Write, UnlinkBody(i, deletes, hasBlock));
    NeutralLookup(Around(InodeLock(i), Write, INODE_GET + UnlinkBody(i, deletes, hasBlock)));
  }

  lemma NeutralCloseFile(h: nat)
    ensures Neutral(Program(CloseFile(h)), 0)
  {
    hide Neutral, Exec, Around, AroundBoth, Table;
    NeutralPieces(true, true);
    NeutralAround(FileLock(h), Write, Table(FileTable, Write));
    NeutralLower(Table(FileTable, Read), 2, 1);
    NeutralSeq(Table(FileTable, Read), Around(FileLock(h), Write, Table(FileTable, Write)), 1);
    NeutralLower(Program(CloseFile(h)), 1, 0);
  }

  lemma NeutralOpenDangling(i: nat, hops: nat)
    ensures Neutral(Program(OpenDangling(i, hops)), 0)
  {
    hide Neutral, Exec, Around, AroundBoth, Table;
    NeutralGetPath(hops, false);
    NeutralInode(i, Write, GetPath(hops, false));
    NeutralLookup(Around(InodeLock(i), Write, INODE_GET + GetPath(hops, false)));
  }

  lemma NeutralLinkTo(i: nat, isLink: bool, validName: bool)
    ensures Neutral(Program(LinkTo(i, isLink, validName)), 0)
  {
    hide Neutral, Exec, Around, AroundBoth, Table;
    NeutralPieces(validName, true);
    NeutralBodies(i, 0, validName, true, true, true, true);
    NeutralInode(i, Write, When(!isLink, LinkBody(i, validName)));
    NeutralLookup(Around(InodeLock(i), Write, INODE_GET + When(!isLink, LinkBody(i, validName))));
  }

  /** The branches that return before they take an inode's lock or an open file's. */
  lemma NeutralShort()
    ensures Neutral([], 0) && Neutral(INODE_GET, 0) && Neutral(INODE_GET + FIND_IN_DIR, 0)
    ensures Neutral(Table(FileTable, Read), 0)
  {
    hide Neutral, Exec, Around, AroundBoth, Table;
    NeutralPieces(true, true);
    NeutralSeq(INODE_GET, FIND_IN_DIR, 2);
    NeutralLower([], 2, 0);
    NeutralLower(INODE_GET, 2, 0);
    NeutralLower(INODE_GET + FIND_IN_DIR, 2, 0);
    NeutralLower(Table(FileTable, Read), 2, 0);
  }

  lemma NeutralProgram(b: Branch)
    ensures Neutral(Program(b), 0)
  {
    hide Neutral, Exec, Around, AroundBoth, Table, GetPath;
    match b
    case OpenFile(i, truncates) => NeutralOpenFile(i, truncates);
    case OpenLink(i, hops, j, truncates) => NeutralOpenLink(i, hops, j, truncates);
    case OpenDangling(i, hops) => NeutralOpenDangling(i, hops);
    case OpenCreates(inodeFree, validName, added) => NeutralOpenCreates(inodeFree, validName, added);
    case LinkTo(i, isLink, validName) => NeutralLinkTo(i, isLink, validName);
    case CloseFile(h) => NeutralCloseFile(h);
    case WriteFile(i, h, writes, allocates, full) => NeutralWriteFile(i, h, writes, allocates, full);
    case ReadFile(i, h, copies) => NeutralReadFile(i, h, copies);
    case UnlinkFile(i, deletes, hasBlock) => NeutralUnlinkFile(i, deletes, hasBlock);
    case _ => NeutralShort();
  }

  /** Whatever branch it takes, a call takes its locks in rank order and gives them all back. */
  lemma EveryCallIsOrdered(b: Branch)
    ensures Ordered(Program(b))
  {
    NeutralProgram(b);
    assert Below(map[], 0);
    hide Program, Exec;
  }

  /** Threads that are each somewhere inside a call. */
  ghost predicate Calling(ts: seq<Thread>) {
    forall t :: 0 <= t < |ts| ==> ts[t].pc <= |ts[t].program| && exists b :: ts[t].program == Program(b)
  }

  /** The calls but tfs_sym_link never deadlock, whatever files, handles and links they meet. */
  lemma CallsDeadlockFree(ts: seq<Thread>)
    requires Calling(ts) && exists t :: 0 <= t < |ts| && ts[t].pc < |ts[t].program|
    ensures AllValid(ts) && exists u: nat :: u < |ts| && CanStep(ts, u)
  {
    forall t | 0 <= t < |ts| ensures ts[t].Valid() {
      var b :| ts[t].program == Program(b);
      EveryCallIsOrdered(b);
    }
    DeadlockFree(ts);
  }

  // ---- who changes an inode ----

  /** Every change is made while the lock that protects it is held in write mode. */
  predicate Guards(p: seq<Action>, held: Held)
    decreases |p|
  {
    p == [] ||
    (&& (p[0].Change? ==> p[0].lock in held && held[p[0].lock] == Write)
     && (Do(p[0], held).Some? ==> Guards(p[1..], Do(p[0], held).value)))
  }

  lemma {:induction false} GuardsAppend(p: seq<Action>, q: seq<Action>, held: Held)
    requires Exec(p, held).Some?
    ensures Guards(p + q, held) <==> Guards(p, held) && Guards(q, Exec(p, held).value)
    decreases |p|
  {
    if p == [] {
      assert p + q == q;
    } else {
      assert (p + q)[0] == p[0] && (p + q)[1..] == p[1..] + q;
      GuardsAppend(p[1..], q, Do(p[0], held).value);
    }
  }

  lemma {:induction false} NothingChanges(p: seq<Action>, held: Held)
    requires forall k :: 0 <= k < |p| ==> !p[k].Change?
    ensures Guards(p, held)
    decreases |p|
  {
    if p != [] && Do(p[0], held).Some? {
      NothingChanges(p[1..], Do(p[0], held).value);
    }
  }

  lemma GuardsChange(l: LockId, held: Held)
    ensures Guards([Change(l)], held) <==> l in held && held[l] == Write
  {
    assert [Change(l)][1..] == [] && Guards([], held);
  }

  lemma GuardsSeq(p: seq<Action>, q: seq<Action>, held: Held, rank: nat)
    requires Neutral(p, rank) && Below(held, rank)
    ensures Guards(p + q, held) <==> Guards(p, held) && Guards(q, held)
  {
    GuardsAppend(p, q, held);
  }

  lemma GuardsAround(l: LockId, m: Mode, body: seq<Action>, held: Held)
    requires Neutral(body, l.Rank() + 1) && Below(held, l.Rank())
    ensures Guards(Around(l, m, body), held) <==> Guards(body, held[l := m])
  {
    hide Guards, Neutral;
    var inside := held[l := m];
    assert Below(inside, l.Rank() + 1);
    AcquiresFirst(l, m, held);
    NeutralIs(body, l.Rank() + 1, inside);
    NothingChanges([Acquire(l, m)], held);
    NothingChanges([Release(l)], inside);
    GuardsAppend([Acquire(l, m)], body + [Release(l)], held);
    GuardsAppend(body, [Release(l)], inside);
    assert Around(l, m, body) == [Acquire(l, m)] + (body + [Release(l)]);
  }

  lemma AcquiresFirst(l: LockId, m: Mode, held: Held)
    requires Below(held, l.Rank())
    ensures Exec([Acquire(l, m)], held) == Some(held[l := m])
  {
    assert Exec([], held[l := m]) == Some(held[l := m]);
  }

  lemma NeutralIs(p: seq<Action>, rank: nat, held: Held)
    requires Neutral(p, rank) && Below(held, rank)
    ensures Exec(p, held) == Some(held)
  {
  }

  /** The tables' sections change no inode. */
  lemma TablesChangeNothing(validName: bool, hasBlock: bool, held: Held)
    ensures Guards(INODE_GET, held) && Guards(FIND_IN_DIR, held) && Guards(CLEAR_DIR_ENTRY, held) && Guards([], held)
    ensures Guards(INODE_GET + FIND_IN_DIR, held)
    ensures Guards(AddDirEntry(validName), held) && Guards(InodeDelete(hasBlock), held)
    ensures forall m :: Guards(Table(DataTable, m), held) && Guards(Table(FileTable, m), held)
  {
    hide Guards;
    NothingChanges(INODE_GET, held);
    NothingChanges(FIND_IN_DIR, held);
    NothingChanges(INODE_GET + FIND_IN_DIR, held);
    NothingChanges(CLEAR_DIR_ENTRY, held);
    NothingChanges([], held);
    NothingChanges(AddDirEntry(validName), held);
    NothingChanges(InodeDelete(hasBlock), held);
    forall m ensures Guards(Table(DataTable, m), held) && Guards(Table(FileTable, m), held) {
      NothingChanges(Table(DataTable, m), held);
      NothingChanges(Table(FileTable, m), held);
    }
  }

  lemma {:induction false} GetPathChangesNothing(hops: nat, found: bool)
    ensures forall k :: 0 <= k < |GetPath(hops, found)| ==> !GetPath(hops, found)[k].Change?
  {
    if hops > 0 {
      GetPathChangesNothing(hops - 1, found);
    }
  }

  /** The pieces that change inode i are guarded exactly where its lock is held in write mode. */
  lemma BodiesGuardIff(i: nat, validName: bool, deletes: bool, hasBlock: bool, held: Held)
    requires Below(held, 2) && InodeLock(i) in held
    ensures var w := held[InodeLock(i)] == Write;
            && (Guards(Truncation(i), held) <==> w)
            && (Guards([Change(InodeLock(i))] + AddDirEntry(validName), held) <==> w)
            && (Guards(UnlinkBody(i, deletes, hasBlock), held) <==> w)
  {
    hide Guards, Neutral, Exec, Around, AroundBoth, Table;
    NeutralPieces(validName, hasBlock);
    TablesChangeNothing(validName, hasBlock, held);
    NeutralChange(InodeLock(i), 2);
    GuardsChange(InodeLock(i), held);
    GuardsSeq(Table(DataTable, Write), [Change(InodeLock(i))], held, 2);
    GuardsSeq([Change(InodeLock(i))], AddDirEntry(validName), held, 2);
    GuardsSeq([Change(InodeLock(i))], When(deletes, InodeDelete(hasBlock)), held, 2);
    GuardsSeq(CLEAR_DIR_ENTRY, [Change(InodeLock(i))] + When(deletes, InodeDelete(hasBlock)), held, 2);
  }

  lemma WriteBodyGuards(i: nat, h: nat, allocates: bool, full: bool, held: Held)
    requires Below(held, 2) && InodeLock(i) in held && held[InodeLock(i)] == Write
    requires FileLock(h) in held && held[FileLock(h)] == Write
    ensures Guards(WriteBody(i, h, allocates, full), held)
  {
    hide Guards, Neutral, Exec, Around, AroundBoth, Table;
    NeutralPieces(true, true);
    TablesChangeNothing(true, true, held);
    NeutralChange(InodeLock(i), 2);
    NeutralChange(FileLock(h), 2);
    GuardsChange(InodeLock(i), held);
    GuardsChange(FileLock(h), held);
    var alloc := Table(DataTable, Write) + When(!full, [Change(InodeLock(i))]);
    GuardsSeq(Table(DataTable, Write), When(!full, [Change(InodeLock(i))]), held, 2);
    GuardsSeq([Change(FileLock(h))], [Change(InodeLock(i))], held, 2);
    GuardsSeq(Table(DataTable, Read), WriteEnd(i, h), held, 2);
    NeutralSeq(Table(DataTable, Write), When(!full, [Change(InodeLock(i))]), 2);
    GuardsSeq(When(allocates, alloc), When(!(allocates && full), Table(DataTable, Read) + WriteEnd(i, h)), held, 2);
  }

  /** A section under an inode's lock, with inode_get at its beginning. */
  lemma InodeGuards(i: nat, m: Mode, rest: seq<Action>)
    requires Neutral(rest, 2)
    ensures Neutral(Around(InodeLock(i), m, INODE_GET + rest), 0)
    ensures Guards(Around(InodeLock(i), m, INODE_GET + rest), map[]) <==> Guards(rest, map[InodeLock(i) := m])
  {
    hide Guards, Neutral, Exec, Around, AroundBoth, Table;
    var held: Held := map[InodeLock(i) := m];
    NeutralPieces(true, true);
    TablesChangeNothing(true, true, held);
    NeutralSeq(INODE_GET, rest, 2);
    NeutralLower(INODE_GET + rest, 2, 1);
    NeutralInode(i, m, rest);
    GuardsAround(InodeLock(i), m, INODE_GET + rest, map[]);
    GuardsSeq(INODE_GET, rest, held, 2);
    assert map[][InodeLock(i) := m] == held;
  }

  /** A lookup comes first. */
  lemma LookupGuards(rest: seq<Action>)
    ensures Guards(INODE_GET + FIND_IN_DIR + rest, map[]) <==> Guards(rest, map[])
  {
    hide Guards, Neutral, Exec, Around, AroundBoth, Table;
    NeutralPieces(true, true);
    NeutralSeq(INODE_GET, FIND_IN_DIR, 2);
    TablesChangeNothing(true, true, map[]);
    GuardsSeq(INODE_GET + FIND_IN_DIR, rest, map[], 2);
  }

  lemma OpenFileGuards(i: nat, truncates: bool)
    ensures Guards(Program(OpenFile(i, truncates)), map[])
  {
    hide Guards, Neutral, Exec, Around, AroundBoth, Table, Truncation;
    NeutralPieces(true, true);
    NeutralBodies(i, 0, true, true, true, true, true);
    var held: Held := map[InodeLock(i) := Write];
    BodiesGuardIff(i, true, true, true, held);
    TablesChangeNothing(true, true, held);
    TablesChangeNothing(true, true, map[]);
    var section := Around(InodeLock(i), Write, INODE_GET + When(truncates, Truncation(i)));
    InodeGuards(i, Write, When(truncates, Truncation(i)));
    GuardsSeq(section, Table(FileTable, Write), map[], 0);
    LookupGuards(section + Table(FileTable, Write));
    assert INODE_GET + FIND_IN_DIR + section + Table(FileTable, Write)
        == INODE_GET + FIND_IN_DIR + (section + Table(FileTable, Write));
  }

  lemma WalkGuards(i: nat, hops: nat)
    ensures Neutral(Around(InodeLock(i), Write, INODE_GET + GetPath(hops, true)), 0)
    ensures Guards(Around(InodeLock(i), Write, INODE_GET + GetPath(hops, true)), map[])
  {
    hide Guards, Neutral, Exec, Around;
    NeutralGetPath(hops, true);
    GetPathChangesNothing(hops, true);
    NothingChanges(GetPath(hops, true), map[InodeLock(i) := Write]);
    InodeGuards(i, Write, GetPath(hops, true));
  }

  lemma TruncatingGuardsIff(j: nat, truncates: bool)
    ensures Neutral(Around(InodeLock(j), Read, INODE_GET + When(truncates, Truncation(j))), 0)
    ensures Guards(Around(InodeLock(j), Read, INODE_GET + When(truncates, Truncation(j))), map[]) <==> !truncates
  {
    hide Guards, Neutral, Exec, Around, AroundBoth, Table, Truncation;
    NeutralPieces(true, true);
    NeutralBodies(j, 0, true, true, true, true, true);
    BodiesGuardIff(j, true, true, true, map[InodeLock(j) := Read]);
    TablesChangeNothing(true, true, map[InodeLock(j) := Read]);
    InodeGuards(j, Read, When(truncates, Truncation(j)));
  }

  lemma OpenLinkGuardsIff(i: nat, hops: nat, j: nat, truncates: bool)
    ensures Guards(Program(OpenLink(i, hops, j, truncates)), map[]) <==> !truncates
  {
    hide Guards, Neutral, Exec, Around, AroundBoth, Table, Truncation, GetPath;
    var first := Around(InodeLock(i), Write, INODE_GET + GetPath(hops, true));
    var second := Around(InodeLock(j), Read, INODE_GET + When(truncates, Truncation(j)));
    var third := Table(FileTable, Write);
    WalkGuards(i, hops);
    TruncatingGuardsIff(j, truncates);
    TablesChangeNothing(true, true, map[]);
    GuardsSeq(second, third, map[], 0);
    GuardsSeq(first, second + third, map[], 0);
    LookupGuards(first + (second + third));
    assert INODE_GET + FIND_IN_DIR + first + second + third == INODE_GET + FIND_IN_DIR + (first + (second + third));
  }

  lemma LinkUnlinkGuards(i: nat, isLink: bool, validName: bool, deletes: bool, hasBlock: bool)
    ensures Guards(Program(LinkTo(i, isLink, validName)), map[])
    ensures Guards(Program(UnlinkFile(i, deletes, hasBlock)), map[])
  {
    hide Guards, Neutral, Exec, Around, AroundBoth, Table, UnlinkBody;
    var held: Held := map[InodeLock(i) := Write];
    NeutralPieces(validName, hasBlock);
    NeutralBodies(i, 0, validName, true, true, deletes, hasBlock);
    BodiesGuardIff(i, validName, deletes, hasBlock, held);
    TablesChangeNothing(validName, hasBlock, held);
    InodeGuards(i, Write, When(!isLink, LinkBody(i, validName)));
    InodeGuards(i, Write, UnlinkBody(i, deletes, hasBlock));
    LookupGuards(Around(InodeLock(i), Write, INODE_GET + When(!isLink, LinkBody(i, validName))));
    LookupGuards(Around(InodeLock(i), Write, INODE_GET + UnlinkBody(i, deletes, hasBlock)));
  }

  lemma WriteGuards(i: nat, h: nat, writes: bool, allocates: bool, full: bool)
    ensures Guards(Program(WriteFile(i, h, writes, allocates, full)), map[])
  {
    hide Guards, Neutral, Exec, Around, AroundBoth, Table, WriteBody;
    var held: Held := map[InodeLock(i) := Write, FileLock(h) := Write];
    var body := When(writes, WriteBody(i, h, allocates, full));
    NeutralPieces(true, true);
    NeutralBodies(i, h, true, allocates, full, true, true);
    WriteBodyGuards(i, h, allocates, full, held);
    TablesChangeNothing(true, true, held);
    HandleGuards(i, h, Write, body);
  }

  lemma ReadGuardsIff(i: nat, h: nat, copies: bool)
    ensures Guards(Program(ReadFile(i, h, copies)), map[]) <==> !copies
  {
    hide Guards, Neutral, Exec, Around, AroundBoth, Table;
    var held: Held := map[InodeLock(i) := Read, FileLock(h) := Read];
    NeutralPieces(true, true);
    NeutralBodies(i, h, true, true, true, true, true);
    TablesChangeNothing(true, true, held);
    GuardsChange(FileLock(h), held);
    GuardsSeq(Table(DataTable, Read), [Change(FileLock(h))], held, 2);
    HandleGuards(i, h, Read, When(copies, ReadBody(h)));
  }

  /** What is done under an inode's lock and an open file's, after the handle has been looked up. */
  lemma HandleGuards(i: nat, h: nat, m: Mode, body: seq<Action>)
    requires Neutral(body, 2)
    ensures Guards(Table(FileTable, Read) + AroundBoth(InodeLock(i), FileLock(h), m, INODE_GET + body), map[])
       <==> Guards(body, map[InodeLock(i) := m, FileLock(h) := m])
  {
    hide Guards, Neutral, Exec, Around, AroundBoth, Table;
    var held: Held := map[InodeLock(i) := m, FileLock(h) := m];
    NeutralPieces(true, true);
    TablesChangeNothing(true, true, held);
    TablesChangeNothing(true, true, map[]);
    NeutralSeq(INODE_GET, body, 2);
    GuardsSeq(INODE_GET, body, held, 2);
    BothGuards(i, h, m, INODE_GET + body);
    NeutralLower(Table(FileTable, Read), 2, 0);
    GuardsSeq(Table(FileTable, Read), AroundBoth(InodeLock(i), FileLock(h), m, INODE_GET + body), map[], 0);
  }

  lemma BothGuards(i: nat, h: nat, m: Mode, body: seq<Action>)
    requires Neutral(body, 2)
    ensures Guards(AroundBoth(InodeLock(i), FileLock(h), m, body), map[])
       <==> Guards(body, map[InodeLock(i) := m, FileLock(h) := m])
  {
    hide Guards, Neutral;
    var one: Held := map[InodeLock(i) := m];
    var both: Held := map[InodeLock(i) := m, FileLock(h) := m];
    var take := [Acquire(InodeLock(i), m), Acquire(FileLock(h), m)];
    var give := [Release(InodeLock(i)), Release(FileLock(h))];
    AcquiresFirst(InodeLock(i), m, map[]);
    AcquiresFirst(FileLock(h), m, one);
    assert take == [Acquire(InodeLock(i), m)] + [Acquire(FileLock(h), m)];
    ExecAppend([Acquire(InodeLock(i), m)], [Acquire(FileLock(h), m)], map[]);
    assert map[][InodeLock(i) := m] == one && one[FileLock(h) := m] == both;
    NothingChanges(take, map[]);
    NothingChanges(give, both);
    NeutralIs(body, 2, both);
    GuardsAppend(take, body + give, map[]);
    GuardsAppend(body, give, both);
    assert AroundBoth(InodeLock(i), FileLock(h), m, body) == take + (body + give);
  }

  /** The calls that change something under a read lock. */
  predicate ChangesUnguarded(b: Branch) { (b.OpenLink? && b.truncates) || (b.ReadFile? && b.copies) }

  /**
   * Every call changes an inode in use or an open file only while it holds its lock in write mode, but for two:
   * tfs_open with TFS_O_TRUNC of a link truncates the link's file under a read lock, and tfs_read moves its cursor
   * under one.
   */
  lemma ChangesAreGuardedIff(b: Branch)
    ensures Guards(Program(b), map[]) <==> !ChangesUnguarded(b)
  {
    hide Guards, Program;
    match b
    case OpenFile(i, truncates) => OpenFileGuards(i, truncates);
    case OpenLink(i, hops, j, truncates) => OpenLinkGuardsIff(i, hops, j, truncates);
    case OpenDangling(i, hops) => DanglingChangesNothing(i, hops);
    case LinkTo(i, isLink, validName) => LinkUnlinkGuards(i, isLink, validName, true, true);
    case WriteFile(i, h, writes, allocates, full) => WriteGuards(i, h, writes, allocates, full);
    case UnlinkFile(i, deletes, hasBlock) => LinkUnlinkGuards(i, true, true, deletes, hasBlock);
    case ReadFile(i, h, copies) => ReadGuardsIff(i, h, copies);
    case OpenCreates(inodeFree, validName, added) => CreateChangesNothing(inodeFree, validName, added);
    case CloseFile(h) => CloseChangesNothing(h);
    case _ => ShortChangesNothing(b);
  }

  lemma DanglingChangesNothing(i: nat, hops: nat)
    ensures Guards(Program(OpenDangling(i, hops)), map[])
  {
    hide Guards, GetPath;
    GetPathChangesNothing(hops, false);
    NothingChanges(Program(OpenDangling(i, hops)), map[]);
  }

  lemma CreateChangesNothing(inodeFree: bool, validName: bool, added: bool)
    ensures Guards(Program(OpenCreates(inodeFree, validName, added)), map[])
  {
    hide Guards;
    NothingChanges(Program(OpenCreates(inodeFree, validName, added)), map[]);
  }

  lemma CloseChangesNothing(h: nat)
    ensures Guards(Program(CloseFile(h)), map[])
  {
    hide Guards;
    NothingChanges(Program(CloseFile(h)), map[]);
  }

  lemma ShortChangesNothing(b: Branch)
    requires b.OpenInvalid? || b.OpenAbsent? || b.LinkInvalid? || b.LinkAbsent? || b.CloseInvalid? || b.WriteInvalid?
          || b.ReadInvalid? || b.UnlinkInvalid? || b.UnlinkAbsent?
    ensures Guards(Program(b), map[])
  {
    hide Guards;
    NothingChanges(Program(b), map[]);
  }

  // ---- writers exclude each other ----

  /** No lock is held by two threads, unless both only read. */
  ghost predicate Compatible(ts: seq<Thread>)
    requires AllValid(ts)
  {
    forall u: nat, v: nat, l :: u < |ts| && v < |ts| && u != v && l in ts[u].Holds() && l in ts[v].Holds() ==>
      ts[u].Holds()[l] == Read && ts[v].Holds()[l] == Read
  }

  function Advanced(ts: seq<Thread>, t: nat): seq<Thread>
    requires t < |ts|
  {
    ts[t := ts[t].(pc := ts[t].pc + 1)]
  }

  lemma HoldsAfter(th: Thread)
    requires th.Valid() && th.pc < |th.program|
    ensures th.(pc := th.pc + 1).Valid()
    ensures Do(th.program[th.pc], th.Holds()) == Some(th.(pc := th.pc + 1).Holds())
  {
    var p, pc := th.program, th.pc;
    assert p[..pc + 1] == p[..pc] + [p[pc]];
    HeldInOrder(p, pc);
    HeldInOrder(p, pc + 1);
    ExecAppend(p[..pc], [p[pc]], map[]);
    LastAction(p[pc], th.Holds());
  }

  lemma StepCompatible(ts: seq<Thread>, t: nat)
    requires AllValid(ts) && Compatible(ts) && t < |ts| && CanStep(ts, t)
    ensures AllValid(Advanced(ts, t)) && Compatible(Advanced(ts, t))
  {
    hide Ordered;
    HoldsAfter(ts[t]);
    var ts' := Advanced(ts, t);
    forall u: nat, v: nat, l |
      u < |ts'| && v < |ts'| && u != v && l in ts'[u].Holds() && l in ts'[v].Holds()
      ensures ts'[u].Holds()[l] == Read && ts'[v].Holds()[l] == Read
    {
      if ts[t].program[ts[t].pc].Acquire? {
        assert !Blocks(ts, if u == t then v else u, t, ts[t].program[ts[t].pc].lock, ts[t].program[ts[t].pc].mode)
            || (u != t && v != t);
      }
    }
  }

  /** A run of threads from the beginning of their programs, one step at a time. */
  ghost predicate LockRun(tss: seq<seq<Thread>>, steps: seq<nat>) {
    && |tss| == |steps| + 1
    && AllValid(tss[0]) && (forall t :: 0 <= t < |tss[0]| ==> tss[0][t].pc == 0)
    && forall k :: 0 <= k < |steps| ==>
         && AllValid(tss[k]) && steps[k] < |tss[k]| && CanStep(tss[k], steps[k])
         && tss[k + 1] == Advanced(tss[k], steps[k])
  }

  lemma NothingHeld(ts: seq<Thread>)
    requires AllValid(ts) && forall t :: 0 <= t < |ts| ==> ts[t].pc == 0
    ensures Compatible(ts)
  {
    forall t | 0 <= t < |ts| ensures ts[t].Holds() == map[] {
      assert ts[t].program[..0] == [];
    }
  }

  lemma {:induction false} CompatibleAlways(tss: seq<seq<Thread>>, steps: seq<nat>, k: nat)
    requires LockRun(tss, steps) && k < |tss|
    ensures AllValid(tss[k]) && Compatible(tss[k])
  {
    hide CanStep, Compatible;
    if k == 0 {
      NothingHeld(tss[0]);
    } else {
      CompatibleAlways(tss, steps, k - 1);
      StepCompatible(tss[k - 1], steps[k - 1]);
    }
  }

  /** The thread is about to change what the lock protects. */
  predicate Changing(th: Thread, l: LockId) { th.pc < |th.program| && th.program[th.pc] == Change(l) }

  lemma ChangesUnderLock(th: Thread, l: LockId)
    requires th.Valid() && Changing(th, l) && Guards(th.program, map[])
    ensures l in th.Holds() && th.Holds()[l] == Write
  {
    var p, pc := th.program, th.pc;
    HeldInOrder(p, pc);
    assert p == p[..pc] + p[pc..];
    GuardsAppend(p[..pc], p[pc..], map[]);
    assert p[pc..][0] == p[pc];
  }

  /**
   * In every run of calls, while a thread is changing an inode or an open file, no other thread is inside a
   * section on it, unless it changes it in one of those two ways.
   */
  lemma WritersExclude(tss: seq<seq<Thread>>, steps: seq<nat>, k: nat, t: nat, l: LockId, b: Branch)
    requires LockRun(tss, steps) && k < |tss| && t < |tss[k]| && Changing(tss[k][t], l)
    requires tss[k][t].program == Program(b) && !ChangesUnguarded(b)
    ensures AllValid(tss[k]) && forall u: nat :: u < |tss[k]| && u != t ==> l !in tss[k][u].Holds()
  {
    hide LockRun, Guards, Program;
    CompatibleAlways(tss, steps, k);
    ChangesAreGuardedIff(b);
    ChangesUnderLock(tss[k][t], l);
  }

  /** tfs_open of a link to file j with TFS_O_TRUNC, about to set the file's size. */
  function LinkTruncation(i: nat, hops: nat, j: nat): Thread {
    Thread(Program(OpenLink(i, hops, j, true)), |LinkPrefix(i, hops)| + 1 + |INODE_GET + Table(DataTable, Write)|)
  }

  function LinkPrefix(i: nat, hops: nat): seq<Action> {
    INODE_GET + FIND_IN_DIR + Around(InodeLock(i), Write, INODE_GET + GetPath(hops, true))
  }

  lemma LinkTruncates(i: nat, hops: nat, j: nat)
    ensures var th := LinkTruncation(i, hops, j);
            th.Valid() && Changing(th, InodeLock(j)) && th.Holds() == map[InodeLock(j) := Read]
  {
    hide Exec, Neutral, Around, Ordered, Table;
    var before, mid := LinkPrefix(i, hops), INODE_GET + Table(DataTable, Write);
    var take := [Acquire(InodeLock(j), Read)];
    var held: Held := map[InodeLock(j) := Read];
    EveryCallIsOrdered(OpenLink(i, hops, j, true));
    NeutralPieces(true, true);
    NeutralGetPath(hops, true);
    NeutralInode(i, Write, GetPath(hops, true));
    NeutralLookup(Around(InodeLock(i), Write, INODE_GET + GetPath(hops, true)));
    NeutralSeq(INODE_GET, Table(DataTable, Write), 2);
    NeutralIs(before, 0, map[]);
    AcquiresFirst(InodeLock(j), Read, map[]);
    assert map[][InodeLock(j) := Read] == held;
    NeutralIs(mid, 2, held);
    ExecAppend(before, take, map[]);
    ExecAppend(before + take, mid, map[]);
    var th := LinkTruncation(i, hops, j);
    LinkProgram(i, hops, j);
    assert th.program[..th.pc] == before + take + mid;
  }

  lemma LinkProgram(i: nat, hops: nat, j: nat)
    ensures var p := Program(OpenLink(i, hops, j, true));
            p == (LinkPrefix(i, hops) + [Acquire(InodeLock(j), Read)] + (INODE_GET + Table(DataTable, Write)))
                 + ([Change(InodeLock(j))] + ([Release(InodeLock(j))] + Table(FileTable, Write)))
  {
    hide Table, GetPath;
  }

  /** No lock keeps two such calls apart. */
  lemma LinkTruncationsMeet(i: nat, hops: nat, i': nat, hops': nat, j: nat)
    ensures var ts := [LinkTruncation(i, hops, j), LinkTruncation(i', hops', j)];
            AllValid(ts) && Compatible(ts) && Changing(ts[0], InodeLock(j)) && Changing(ts[1], InodeLock(j))
  {
    hide LinkTruncation, Ordered;
    LinkTruncates(i, hops, j);
    LinkTruncates(i', hops', j);
  }

  /** tfs_read through handle h on file i, about to move the cursor. */
  function CursorMove(i: nat, h: nat): Thread {
    Thread(Program(ReadFile(i, h, true)), |Table(FileTable, Read)| + 2 + |INODE_GET + Table(DataTable, Read)|)
  }

  lemma CursorMoves(i: nat, h: nat)
    ensures var th := CursorMove(i, h);
            && th.Valid() && Changing(th, FileLock(h))
            && th.Holds() == map[InodeLock(i) := Read, FileLock(h) := Read]
  {
    hide Exec, Neutral, Around, Ordered, Table;
    var before, mid := Table(FileTable, Read), INODE_GET + Table(DataTable, Read);
    var first, second := [Acquire(InodeLock(i), Read)], [Acquire(FileLock(h), Read)];
    var one: Held := map[InodeLock(i) := Read];
    var both: Held := map[InodeLock(i) := Read, FileLock(h) := Read];
    EveryCallIsOrdered(ReadFile(i, h, true));
    NeutralPieces(true, true);
    NeutralSeq(INODE_GET, Table(DataTable, Read), 2);
    NeutralIs(before, 2, map[]);
    AcquiresFirst(InodeLock(i), Read, map[]);
    AcquiresFirst(FileLock(h), Read, one);
    assert map[][InodeLock(i) := Read] == one && one[FileLock(h) := Read] == both;
    NeutralIs(mid, 2, both);
    ExecAppend(before, first, map[]);
    ExecAppend(before + first, second, map[]);
    ExecAppend(before + first + second, mid, map[]);
    ReadProgram(i, h);
    var th := CursorMove(i, h);
    assert th.program[..th.pc] == before + first + second + mid;
  }

  lemma ReadProgram(i: nat, h: nat)
    ensures var p := Program(ReadFile(i, h, true));
            p == (Table(FileTable, Read) + [Acquire(InodeLock(i), Read)] + [Acquire(FileLock(h), Read)]
                  + (INODE_GET + Table(DataTable, Read)))
                 + ([Change(FileLock(h))] + [Release(InodeLock(i)), Release(FileLock(h))])
  {
    hide Table;
  }

  /** No lock keeps two reads through one handle apart. */
  lemma CursorMovesMeet(i: nat, h: nat)
    ensures var ts := [CursorMove(i, h), CursorMove(i, h)];
            AllValid(ts) && Compatible(ts) && Changing(ts[0], FileLock(h)) && Changing(ts[1], FileLock(h))
  {
    hide CursorMove, Ordered;
    CursorMoves(i, h);
  }

  // ---- tfs_sym_link ----

  /** The branches of tfs_sym_link; the link that it makes is a new inode. */
  datatype SymBranch =
    | SymInvalid
    | SymAbsent
    | SymNoRoom(target: nat, inodeFree: bool)
    | SymMakes(target: nat, link: nat, validName: bool)

  /** Up to the point where the second inode lock is taken. */
  function SymFirst(i: nat): seq<Action> {
    INODE_GET + FIND_IN_DIR + [Acquire(InodeLock(i), Read)] + (INODE_ALLOC + Table(DataTable, Write))
  }

  /** What is done under both inode locks. */
  function SymSecond(validName: bool): seq<Action> {
    INODE_GET + Table(DataTable, Read) + AddDirEntry(validName)
  }

  function SymProgram(b: SymBranch): seq<Action> {
    match b
    case SymInvalid => INODE_GET
    case SymAbsent => INODE_GET + FIND_IN_DIR
    case SymNoRoom(i, inodeFree) =>
      INODE_GET + FIND_IN_DIR +
      Around(InodeLock(i), Read, INODE_ALLOC + When(inodeFree, Table(DataTable, Write) + InodeDelete(false)))
    case SymMakes(i, j, validName) =>
      SymFirst(i) + [Acquire(InodeLock(j), Write)] + SymSecond(validName) +
      [Release(InodeLock(i)), Release(InodeLock(j))]
  }

  /** Its second inode lock breaks the order, so the argument above leaves it out. */
  lemma SymLinkNotOrdered(i: nat, j: nat, validName: bool)
    ensures !Ordered(SymProgram(SymMakes(i, j, validName)))
  {
    hide Exec, SymFirst, SymSecond;
    SymHolds(i);
    var held: Held := map[InodeLock(i) := Read];
    var last := [Release(InodeLock(i)), Release(InodeLock(j))];
    var rest := [Acquire(InodeLock(j), Write)] + (SymSecond(validName) + last);
    assert SymProgram(SymMakes(i, j, validName)) == SymFirst(i) + rest;
    ExecAppend(SymFirst(i), rest, map[]);
    assert InodeLock(i) in held;
    ExecStops(rest, held);
  }

  lemma ExecStops(p: seq<Action>, held: Held)
    requires p != [] && Do(p[0], held).None?
    ensures Exec(p, held).None?
  {
  }

  /** The lock of the target is held then, and no other. */
  lemma SymHolds(i: nat)
    ensures Exec(SymFirst(i), map[]) == Some(map[InodeLock(i) := Read])
  {
    hide Exec, Neutral;
    NeutralPieces(true, true);
    NeutralSeq(INODE_GET, FIND_IN_DIR, 2);
    NeutralSeq(INODE_ALLOC, Table(DataTable, Write), 2);
    var held: Held := map[InodeLock(i) := Read];
    NeutralIs(INODE_GET + FIND_IN_DIR, 2, map[]);
    NeutralIs(INODE_ALLOC + Table(DataTable, Write), 2, held);
    ExecOne(InodeLock(i), Read);
    ExecAppend(INODE_GET + FIND_IN_DIR, [Acquire(InodeLock(i), Read)], map[]);
    ExecAppend(INODE_GET + FIND_IN_DIR + [Acquire(InodeLock(i), Read)], INODE_ALLOC + Table(DataTable, Write), map[]);
  }

  lemma ExecOne(l: LockId, m: Mode)
    ensures Exec([Acquire(l, m)], map[]) == Some(map[l := m])
  {
    assert Exec([], map[l := m]) == Some(map[l := m]);
  }

  // ---- threads that need not keep to the order ----

  /** The locks held after so many actions, in whatever order they were taken. */
  function Locks(p: seq<Action>): Held {
    if p == [] then map[]
    else
      var held := Locks(p[..|p| - 1]);
      match p[|p| - 1]
      case Acquire(l, m) => held[l := m]
      case Release(l) => held - {l}
      case Change(_) => held
  }

  function Holding(th: Thread): Held
    requires th.pc <= |th.program|
  {
    Locks(th.program[..th.pc])
  }

  ghost predicate Started(ts: seq<Thread>) { forall t :: 0 <= t < |ts| ==> ts[t].pc <= |ts[t].program| }

  /** Thread t is about to take lock l. */
  predicate TakesNext(th: Thread, l: LockId) {
    th.pc < |th.program| && th.program[th.pc].Acquire? && th.program[th.pc].lock == l
  }

  /** Thread t has something to do, and nobody stands in its way. */
  ghost predicate MayStep(ts: seq<Thread>, t: nat)
    requires t < |ts| && Started(ts)
  {
    && ts[t].pc < |ts[t].program|
    && match ts[t].program[ts[t].pc]
       case Release(_) => true
       case Change(_) => true
       case Acquire(l, m) =>
         forall u: nat :: u < |ts| && u != t && l in Holding(ts[u]) ==> m.Read? && Holding(ts[u])[l].Read?
  }

  // ---- a deadlock of two links ----

  /** A thread in tfs_sym_link that is about to take its second inode lock. */
  function SymWaiting(i: nat, j: nat, validName: bool): Thread {
    Thread(SymProgram(SymMakes(i, j, validName)), |SymFirst(i)|)
  }

  lemma SymWaits(i: nat, j: nat, validName: bool)
    ensures var th := SymWaiting(i, j, validName);
            && th.pc < |th.program| && th.program[th.pc] == Acquire(InodeLock(j), Write)
            && InodeLock(i) in Holding(th)
  {
    hide SymFirst, SymSecond, Exec;
    var th := SymWaiting(i, j, validName);
    assert th.program[..th.pc] == SymFirst(i);
    SymHolds(i);
    StripNothing(SymFirst(i), None);
    LocksOf(SymFirst(i), None);
  }

  /**
   * Two threads can deadlock in tfs_sym_link. Each has looked up its target, the targets were unlinked
   * before it took the target's lock, and it has been given the other's old inode for its link.
   */
  lemma SymLinksDeadlock(i: nat, j: nat, validName: bool, validName': bool)
    requires i != j
    ensures var ts := [SymWaiting(i, j, validName), SymWaiting(j, i, validName')];
            Started(ts) && !MayStep(ts, 0) && !MayStep(ts, 1)
  {
    hide SymWaiting, Holding;
    SymWaits(i, j, validName);
    SymWaits(j, i, validName');
    var ts := [SymWaiting(i, j, validName), SymWaiting(j, i, validName')];
    assert ts[0] == SymWaiting(i, j, validName) && ts[1] == SymWaiting(j, i, validName');
  }

  // ---- no deadlock when the new inode is nobody else's ----

  /** The program without what it does with its own lock. */
  function Strip(p: seq<Action>, own: Option<LockId>): seq<Action> {
    if p == [] then []
    else Strip(p[..|p| - 1], own) + if p[|p| - 1].On(own) then [] else [p[|p| - 1]]
  }

  lemma {:induction false} StripAppend(p: seq<Action>, q: seq<Action>, own: Option<LockId>)
    ensures Strip(p + q, own) == Strip(p, own) + Strip(q, own)
    decreases |q|
  {
    if q == [] {
      assert p + q == p;
    } else {
      assert (p + q)[..|p + q| - 1] == p + q[..|q| - 1];
      StripAppend(p, q[..|q| - 1], own);
    }
  }

  /** Programs that do not touch the lock stay as they are. */
  lemma {:induction false} StripNothing(p: seq<Action>, own: Option<LockId>)
    requires forall k :: 0 <= k < |p| ==> !p[k].On(own)
    ensures Strip(p, own) == p
  {
    if p != [] {
      StripNothing(p[..|p| - 1], own);
    }
  }

  /** Apart from the own lock, a thread holds what its stripped program holds. */
  lemma {:induction false} LocksOf(p: seq<Action>, own: Option<LockId>)
    requires Exec(Strip(p, own), map[]).Some?
    ensures var held := Exec(Strip(p, own), map[]).value;
            forall l :: own != Some(l) ==> (l in Locks(p) <==> l in held) && (l in held ==> Locks(p)[l] == held[l])
  {
    if p != [] {
      var a := p[|p| - 1];
      var before := Strip(p[..|p| - 1], own);
      if a.On(own) {
        assert before + [] == before;
        LocksOf(p[..|p| - 1], own);
      } else {
        ExecAppend(before, [a], map[]);
        LocksOf(p[..|p| - 1], own);
        LastAction(a, Exec(before, map[]).value);
      }
    }
  }

  lemma LastAction(a: Action, held: Held)
    requires Exec([a], held).Some?
    ensures Exec([a], held) == Do(a, held)
  {
    assert Do(a, held).Some? ==> Exec([], Do(a, held).value) == Do(a, held);
  }

  function Stripped(th: Thread, own: Option<LockId>): Thread
    requires th.pc <= |th.program|
  {
    Thread(Strip(th.program, own), |Strip(th.program[..th.pc], own)|)
  }

  /** A thread whose next action is not about its own lock does the same next when stripped. */
  lemma StrippedNext(th: Thread, own: Option<LockId>)
    requires th.pc <= |th.program| && Ordered(Strip(th.program, own))
    requires th.pc < |th.program| ==> !th.program[th.pc].On(own)
    ensures var st := Stripped(th, own);
            && st.Valid() && (st.pc < |st.program| <==> th.pc < |th.program|)
            && (th.pc < |th.program| ==> st.program[st.pc] == th.program[th.pc])
    ensures var held := Stripped(th, own).Holds();
            forall l :: own != Some(l) ==>
              (l in Holding(th) <==> l in held) && (l in held ==> Holding(th)[l] == held[l])
  {
    var p, pc := th.program, th.pc;
    assert p == p[..pc] + p[pc..];
    StripAppend(p[..pc], p[pc..], own);
    var st := Stripped(th, own);
    assert st.program[..st.pc] == Strip(p[..pc], own);
    if pc < |p| {
      assert p[pc..] == [p[pc]] + p[pc + 1..];
      StripAppend([p[pc]], p[pc + 1..], own);
      StripOne(p[pc], own);
    } else {
      assert p[pc..] == [];
    }
    HeldInOrder(st.program, st.pc);
    LocksOf(p[..pc], own);
  }

  lemma StripOne(a: Action, own: Option<LockId>)
    ensures Strip([a], own) == if a.On(own) then [] else [a]
  {
    assert [a][..0] == [] && Strip([], own) == [];
  }

  /** Each thread's own lock is one that no other thread holds or is about to take. */
  ghost predicate OwnLocks(ts: seq<Thread>, own: seq<Option<LockId>>)
    requires |own| == |ts| && Started(ts)
  {
    forall t, u, l :: 0 <= t < |ts| && 0 <= u < |ts| && t != u && own[t] == Some(l) ==>
      l !in Holding(ts[u]) && !TakesNext(ts[u], l)
  }

  /** Apart from their own locks all threads keep to the order. */
  ghost predicate OrderedButOwn(ts: seq<Thread>, own: seq<Option<LockId>>)
    requires |own| == |ts|
  {
    forall t :: 0 <= t < |ts| ==> Ordered(Strip(ts[t].program, own[t]))
  }

  lemma StrippedMayStep(ts: seq<Thread>, own: seq<Option<LockId>>, ss: seq<Thread>, u: nat)
    requires |own| == |ts| == |ss| && Started(ts) && OwnLocks(ts, own) && OrderedButOwn(ts, own)
    requires forall t :: 0 <= t < |ts| ==> ss[t] == Stripped(ts[t], own[t])
    requires forall t :: 0 <= t < |ts| && ts[t].pc < |ts[t].program| ==> !ts[t].program[ts[t].pc].On(own[t])
    requires AllValid(ss) && u < |ss| && CanStep(ss, u)
    ensures MayStep(ts, u)
  {
    hide Stripped, Strip, Holding, Ordered, OrderedButOwn;
    OrderedOf(ts, own, u);
    StrippedNext(ts[u], own[u]);
    if ts[u].program[ts[u].pc].Acquire? {
      var l := ts[u].program[ts[u].pc].lock;
      var m := ts[u].program[ts[u].pc].mode;
      forall v: nat | v < |ts| && v != u && l in Holding(ts[v]) ensures m.Read? && Holding(ts[v])[l].Read? {
        assert TakesNext(ts[u], l);
        OrderedOf(ts, own, v);
        StrippedNext(ts[v], own[v]);
        assert !Blocks(ss, v, u, l, m);
      }
    }
  }

  lemma OrderedOf(ts: seq<Thread>, own: seq<Option<LockId>>, t: nat)
    requires |own| == |ts| && OrderedButOwn(ts, own) && t < |ts|
    ensures Ordered(Strip(ts[t].program, own[t]))
  {
  }

  /** No deadlock: if a thread is unfinished, one can step. */
  lemma OwnDeadlockFree(ts: seq<Thread>, own: seq<Option<LockId>>)
    requires |own| == |ts| && Started(ts) && OwnLocks(ts, own) && OrderedButOwn(ts, own)
    requires exists t :: 0 <= t < |ts| && ts[t].pc < |ts[t].program|
    ensures exists u: nat :: u < |ts| && MayStep(ts, u)
  {
    hide Strip, Stripped, Holding, Ordered, OrderedButOwn;
    if t: nat :| t < |ts| && ts[t].pc < |ts[t].program| && ts[t].program[ts[t].pc].On(own[t]) {
      assert MayStep(ts, t);
    } else {
      var ss := seq(|ts|, t requires 0 <= t < |ts| => Stripped(ts[t], own[t]));
      forall t | 0 <= t < |ss| ensures ss[t].Valid() && (ss[t].pc < |ss[t].program| <==> ts[t].pc < |ts[t].program|) {
        OrderedOf(ts, own, t);
        StrippedNext(ts[t], own[t]);
      }
      var t :| 0 <= t < |ts| && ts[t].pc < |ts[t].program|;
      assert ss[t].pc < |ss[t].program|;
      DeadlockFree(ss);
      var u: nat :| u < |ss| && CanStep(ss, u);
      StrippedMayStep(ts, own, ss, u);
    }
  }

  // ---- all calls ----

  /** The lock of the inode that a tfs_sym_link makes. */
  function OwnLock(b: SymBranch): Option<LockId> {
    match b
    case SymMakes(_, j, _) => Some(InodeLock(j))
    case _ => None
  }

  lemma TablesRank(p: seq<Action>, l: LockId)
    requires l.Rank() == 0 && forall k :: 0 <= k < |p| ==> !p[k].Change? && p[k].lock.Rank() >= 2
    ensures Strip(p, Some(l)) == p
  {
    StripNothing(p, Some(l));
  }

  lemma StripSections(
      a: seq<Action>, x: Action, b: seq<Action>, y: Action, c: seq<Action>, z: Action, w: Action, own: Option<LockId>)
    requires Strip(a, own) == a && Strip(b, own) == b && Strip(c, own) == c
    requires !x.On(own) && !z.On(own) && y.On(own) && w.On(own)
    ensures Strip(a + [x] + b + [y] + c + [z, w], own) == a + ([x] + (b + c) + [z])
  {
    hide Strip;
    StripOne(x, own);
    StripOne(y, own);
    StripOne(z, own);
    StripOne(w, own);
    StripAppend(a, [x], own);
    StripAppend(a + [x], b, own);
    StripAppend(a + [x] + b, [y], own);
    StripAppend(a + [x] + b + [y], c, own);
    StripAppend([z], [w], own);
    assert [z] + [w] == [z, w];
    StripAppend(a + [x] + b + [y] + c, [z, w], own);
    assert a + [x] + b + [] + c + ([z] + []) == a + ([x] + (b + c) + [z]);
  }

  lemma SymTables(l: LockId, validName: bool)
    requires l.Rank() == 0
    ensures Strip(INODE_GET + FIND_IN_DIR, Some(l)) == INODE_GET + FIND_IN_DIR
    ensures Strip(INODE_ALLOC + Table(DataTable, Write), Some(l)) == INODE_ALLOC + Table(DataTable, Write)
    ensures Strip(SymSecond(validName), Some(l)) == SymSecond(validName)
  {
    hide Strip;
    TablesRank(INODE_GET + FIND_IN_DIR, l);
    TablesRank(INODE_ALLOC + Table(DataTable, Write), l);
    TablesRank(SymSecond(validName), l);
  }

  /** Without its second inode lock tfs_sym_link is one section under the target's lock. */
  lemma SymStripped(i: nat, j: nat, validName: bool)
    requires i != j
    ensures Strip(SymProgram(SymMakes(i, j, validName)), Some(InodeLock(j)))
         == INODE_GET + FIND_IN_DIR
            + Around(InodeLock(i), Read, (INODE_ALLOC + Table(DataTable, Write)) + SymSecond(validName))
  {
    hide Strip, SymSecond, Table;
    SymTables(InodeLock(j), validName);
    StripSections(INODE_GET + FIND_IN_DIR, Acquire(InodeLock(i), Read), INODE_ALLOC + Table(DataTable, Write),
      Acquire(InodeLock(j), Write), SymSecond(validName), Release(InodeLock(i)), Release(InodeLock(j)),
      Some(InodeLock(j)));
  }

  lemma SymBodyNeutral(validName: bool, inodeFree: bool)
    ensures Neutral((INODE_ALLOC + Table(DataTable, Write)) + SymSecond(validName), 1)
    ensures Neutral(INODE_ALLOC + When(inodeFree, Table(DataTable, Write) + InodeDelete(false)), 1)
  {
    hide Neutral, Exec, Around, AroundBoth, Table;
    NeutralPieces(validName, false);
    NeutralSeq(INODE_ALLOC, Table(DataTable, Write), 2);
    NeutralSeq(INODE_GET, Table(DataTable, Read), 2);
    NeutralSeq(INODE_GET + Table(DataTable, Read), AddDirEntry(validName), 2);
    NeutralSeq(INODE_ALLOC + Table(DataTable, Write), SymSecond(validName), 2);
    NeutralLower((INODE_ALLOC + Table(DataTable, Write)) + SymSecond(validName), 2, 1);
    NeutralSeq(Table(DataTable, Write), InodeDelete(false), 2);
    NeutralSeq(INODE_ALLOC, When(inodeFree, Table(DataTable, Write) + InodeDelete(false)), 2);
    NeutralLower(INODE_ALLOC + When(inodeFree, Table(DataTable, Write) + InodeDelete(false)), 2, 1);
  }

  /** Apart from the lock of the inode it makes, tfs_sym_link keeps to the order. */
  lemma SymLinkOrderedButOwn(b: SymBranch)
    requires b.SymMakes? ==> b.target != b.link
    ensures Ordered(Strip(SymProgram(b), OwnLock(b)))
  {
    hide Neutral, Exec, Around, AroundBoth, Table, SymSecond, Strip;
    NeutralShort();
    match b {
    case SymMakes(i, j, validName) =>
      SymStripped(i, j, validName);
      SymBodyNeutral(validName, true);
      NeutralAround(InodeLock(i), Read, (INODE_ALLOC + Table(DataTable, Write)) + SymSecond(validName));
      NeutralLookup(Around(InodeLock(i), Read, (INODE_ALLOC + Table(DataTable, Write)) + SymSecond(validName)));
    case SymNoRoom(i, inodeFree) =>
      StripNothing(SymProgram(b), None);
      SymBodyNeutral(true, inodeFree);
      NeutralAround(InodeLock(i), Read, INODE_ALLOC + When(inodeFree, Table(DataTable, Write) + InodeDelete(false)));
      NeutralLookup(
        Around(InodeLock(i), Read, INODE_ALLOC + When(inodeFree, Table(DataTable, Write) + InodeDelete(false))));
    case _ => StripNothing(SymProgram(b), None);
    }
    NeutralOrdered(Strip(SymProgram(b), OwnLock(b)));
  }

  lemma NeutralOrdered(p: seq<Action>)
    requires Neutral(p, 0)
    ensures Ordered(p)
  {
    assert Below(map[], 0);
  }

  /** Threads that are each somewhere inside a call, tfs_sym_link among them. */
  ghost predicate CallingAny(ts: seq<Thread>, own: seq<Option<LockId>>)
    requires |own| == |ts|
  {
    forall t :: 0 <= t < |ts| ==>
      && ts[t].pc <= |ts[t].program|
      && ((own[t] == None && exists b :: ts[t].program == Program(b))
          || exists b :: ts[t].program == SymProgram(b) && own[t] == OwnLock(b) && (b.SymMakes? ==> b.target != b.link))
  }

  /**
   * No deadlock among all the calls, tfs_sym_link included, as long as the inode that a tfs_sym_link makes is
   * one whose lock no other thread holds or is about to take.
   */
  lemma AllCallsDeadlockFree(ts: seq<Thread>, own: seq<Option<LockId>>)
    requires |own| == |ts| && CallingAny(ts, own)
    requires Started(ts) && OwnLocks(ts, own)
    requires exists t :: 0 <= t < |ts| && ts[t].pc < |ts[t].program|
    ensures exists u: nat :: u < |ts| && MayStep(ts, u)
  {
    hide Program, SymProgram, Strip, Ordered, OwnLocks, MayStep;
    forall t | 0 <= t < |ts| ensures Ordered(Strip(ts[t].program, own[t])) {
      if b :| own[t] == None && ts[t].program == Program(b) {
        EveryCallIsOrdered(b);
        StripNothing(ts[t].program, None);
      } else {
        var b :| ts[t].program == SymProgram(b) && own[t] == OwnLock(b) && (b.SymMakes? ==> b.target != b.link);
        SymLinkOrderedButOwn(b);
      }
    }
    OwnDeadlockFree(ts, own);
  }
}
