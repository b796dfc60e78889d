/** TecnicoFS without tables: names, files, and open handles, each with a limit. */
module FsAbstract {
  import opened CTypes
  import opened FsState
  import opened FsOperations
  import opened FsReads

  datatype AFile = Plain(bytes: seq<Byte>) | Alias(target: CString) {
    predicate UsesBlock() { Alias? || bytes != [] }
  }

  datatype Limits = Limits(files: nat, names: nat, handles: nat, blocks: nat, blockSize: nat)

  datatype AFs = AFs(names: map<CString, int>, files: map<int, AFile>, handles: map<int, OpenEntry>) {

    /** The file bound to a path, -1 when there is none. */
    function Bound(path: CString): int {
      if ValidPath(path) && path[1..] in names then names[path[1..]] else -1
    }

    function BlocksUsed(): nat {
      |set i | i in files && files[i].UsesBlock()|
    }

    /** The plain file at the end of a chain of aliases, -1 when a target is not bound. */
    function Resolved(id: int, fuel: nat): Option<int>
      decreases fuel
    {
      if id == -1 then Some(-1)
      else if id !in files then None
      else if files[id].Plain? then Some(id)
      else if fuel == 0 then None
      else Resolved(Bound(files[id].target), fuel - 1)
    }

    ghost predicate LeadsTo(id: int, r: int) { exists fuel: nat :: Resolved(id, fuel) == Some(r) }

    /** Room for the name in the directory. */
    predicate NameFits(l: Limits, name: CString) { |names| < l.names && ValidEntryName(name) }
  }

  /** A handle on file id, or -1 when all handles are in use. */
  ghost predicate GetsHandle(l: Limits, a: AFs, id: int, offset: nat, a': AFs, ret: int) {
    if |a.handles| == l.handles then ret == -1 && a' == a
    else 0 <= ret < l.handles && ret !in a.handles && a' == a.(handles := a.handles[ret := OpenEntry(id, offset)])
  }

  ghost predicate OpensFile(l: Limits, a: AFs, id: int, mode: Mode, a': AFs, ret: int) {
    && id in a.files && a.files[id].Plain?
    && var b := if mode.truncate then a.(files := a.files[id := Plain([])]) else a;
       GetsHandle(l, b, id, if mode.append then |b.files[id].bytes| else 0, a', ret)
  }

  ghost predicate CreatesFile(l: Limits, a: AFs, name: CString, a': AFs, ret: int) {
    if |a.files| == l.files || !a.NameFits(l, name) then ret == -1 && a' == a
    else exists id :: NewFile(l, a, name, id, a', ret)
  }

  ghost predicate NewFile(l: Limits, a: AFs, name: CString, id: int, a': AFs, ret: int) {
    && id != -1 && id !in a.files
    && GetsHandle(l, a.(names := a.names[name := id], files := a.files[id := Plain([])]), id, 0, a', ret)
  }

  ghost predicate Opens(l: Limits, a: AFs, path: CString, mode: Mode, a': AFs, ret: int) {
    if a.Bound(path) != -1 then
      exists r :: a.LeadsTo(a.Bound(path), r) && OpensResolved(l, a, r, mode, a', ret)
    else if ValidPath(path) && mode.create then CreatesFile(l, a, path[1..], a', ret)
    else ret == -1 && a' == a
  }

  ghost predicate OpensResolved(l: Limits, a: AFs, r: int, mode: Mode, a': AFs, ret: int) {
    if r == -1 then ret == -1 && a' == a else OpensFile(l, a, r, mode, a', ret)
  }

  /** The name after a path's first byte. */
  function NameOf(path: CString): CString { if path == [] then [] else path[1..] }

  /**
   * Entering a name: an unbound one gets bound, if there is room for it. A bound one may be bound anew or
   * keep its binding.
   */
  ghost predicate Enters(l: Limits, a: AFs, name: CString, id: int, a': AFs) {
    if !a.NameFits(l, name) then a' == a
    else a' == a.(names := a.names[name := id]) || (name in a.names && a' == a)
  }

  ghost predicate SymLinks(l: Limits, a: AFs, target: CString, name: CString, a': AFs, ret: int) {
    if a.Bound(target) == -1 || |a.files| == l.files || a.BlocksUsed() == l.blocks then ret == -1 && a' == a
    else ret == 0 && exists id :: NewAlias(l, a, target, name, id, a')
  }

  ghost predicate NewAlias(l: Limits, a: AFs, target: CString, name: CString, id: int, a': AFs) {
    id != -1 && id !in a.files && Enters(l, a.(files := a.files[id := Alias(target)]), name, id, a')
  }

  ghost predicate Links(l: Limits, a: AFs, target: CString, name: CString, a': AFs, ret: int) {
    var id := a.Bound(target);
    if id == -1 || (id in a.files && a.files[id].Alias?) then ret == -1 && a' == a
    else ret == 0 && Enters(l, a, name, id, a')
  }

  ghost predicate Closes(a: AFs, h: int, a': AFs, ret: int) {
    if h !in a.handles then ret == -1 && a' == a
    else ret == 0 && a' == a.(handles := a.handles - {h})
  }

  /** c with the bytes from offset on replaced, and extended where they reach past its end. */
  function Overwrite(c: seq<Byte>, offset: nat, bytes: seq<Byte>): (r: seq<Byte>)
    requires offset <= |c|
  {
    c[..offset] + bytes + if offset + |bytes| < |c| then c[offset + |bytes|..] else []
  }

  ghost predicate Writes(l: Limits, a: AFs, h: int, buffer: seq<Byte>, a': AFs, ret: int) {
    if h !in a.handles then ret == -1 && a' == a
    else
      var OpenEntry(id, offset) := a.handles[h];
      && id in a.files && a.files[id].Plain? && offset <= |a.files[id].bytes| <= l.blockSize
      && var n := if |buffer| <= l.blockSize - offset then |buffer| else l.blockSize - offset;
         var c := a.files[id].bytes;
         if n == 0 then ret == 0 && a' == a
         else if c == [] && a.BlocksUsed() == l.blocks then ret == -1 && a' == a
         else
           && ret == n
           && a' == a.(files := a.files[id := Plain(Overwrite(c, offset, buffer[..n]))],
                       handles := a.handles[h := OpenEntry(id, offset + n)])
  }

  ghost predicate Reads(a: AFs, h: int, len: nat, a': AFs, ret: int, bytes: seq<Byte>) {
    if h !in a.handles then ret == -1 && a' == a
    else
      var OpenEntry(id, offset) := a.handles[h];
      && id in a.files && a.files[id].Plain? && offset <= |a.files[id].bytes|
      && var r := Delivered(a.files[id].bytes, offset, len);
         bytes == r.bytes && ret == |bytes| && a' == a.(handles := a.handles[h := OpenEntry(id, r.offset)])
  }

  ghost predicate Unlinks(a: AFs, target: CString, a': AFs, ret: int) {
    var id := a.Bound(target);
    if id == -1 then ret == -1 && a' == a
    else
      var names := a.names - {target[1..]};
      ret == 0 && a' == a.(names := names, files := if id in names.Values then a.files else a.files - {id})
  }

  /** What a call may do. */
  ghost predicate AStep(l: Limits, a: AFs, c: Call, a': AFs, ret: int, bytes: seq<Byte>) {
    match c
    case Open(path, mode) => Opens(l, a, path, mode, a', ret)
    case SymLink(target, linkName) => SymLinks(l, a, target, NameOf(linkName), a', ret)
    case Link(target, linkName) => Links(l, a, target, NameOf(linkName), a', ret)
    case Close(h) => Closes(a, h, a', ret)
    case Write(h, buffer) => Writes(l, a, h, buffer, a', ret)
    case Read(h, len) => Reads(a, h, len, a', ret, bytes)
    case Unlink(target) => Unlinks(a, target, a', ret)
  }
}
