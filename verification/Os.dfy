/** The slice of the operating system the source verifier uses: a fixed tree, a table of open
    descriptors, and calls any of which may fail. */
module Os {
  import opened Text
  import opened Outcomes

  datatype Node = Dir(entries: map<Str, Node>) | File(bytes: seq<Byte>) | Link | Special

  datatype Handle = Handle(node: Node, pos: nat)

  datatype OsError = OsError

  type Table = map<nat, Handle>

  predicate HasEntry(node: Node, name: Str) {
    node.Dir? && name in node.entries
  }

  class Kernel {
    const root: Node
    /** Whether the nth call fails, and how many bytes the nth call would read at once. */
    const fails: nat -> bool
    const grants: nat -> nat

    var table: Table
    var next: nat
    var calls: nat
    /** The most descriptors ever open at once. */
    ghost var peak: nat

    ghost predicate Valid()
      reads this
    {
      (forall fd :: fd in table ==> fd < next) && |table| <= peak
    }

    ghost predicate FaultFree() {
      forall n :: !fails(n)
    }

    constructor (root: Node, fails: nat -> bool, grants: nat -> nat)
      ensures Valid() && table == map[] && peak == 0
      ensures this.root == root && this.fails == fails && this.grants == grants
    {
      this.root, this.fails, this.grants := root, fails, grants;
      table, next, calls, peak := map[], 0, 0, 0;
    }

    method Admit(node: Node) returns (fd: nat)
      requires Valid()
      modifies this`table, this`next, this`peak
      ensures Valid()
      ensures fd !in old(table) && table == old(table)[fd := Handle(node, 0)]
      ensures |table| == |old(table)| + 1
      ensures peak == if |old(table)| + 1 > old(peak) then |old(table)| + 1 else old(peak)
    {
      fd := next;
      assert table[fd := Handle(node, 0)].Keys == table.Keys + {fd};
      table := table[fd := Handle(node, 0)];
      next := next + 1;
      if |table| > peak {
        peak := |table|;
      }
    }

    /** open("/", O_RDONLY | O_DIRECTORY). */
    method OpenRoot() returns (r: Result<nat, OsError>)
      requires Valid()
      modifies this
      ensures Valid()
      ensures match r
        case Ok(fd) =>
          && fd !in old(table) && table == old(table)[fd := Handle(root, 0)] && root.Dir?
          && |table| == |old(table)| + 1
          && peak == if |old(table)| + 1 > old(peak) then |old(table)| + 1 else old(peak)
        case Err(_) => table == old(table) && peak == old(peak)
      ensures FaultFree() ==> (r.Ok? <==> root.Dir?)
    {
      calls := calls + 1;
      if fails(calls) || !root.Dir? {
        return Err(OsError);
      }
      var fd := Admit(root);
      return Ok(fd);
    }

    /** stat(name, dir_fd, follow_symlinks=False). */
    method StatAt(fd: nat, name: Str) returns (r: Result<Node, OsError>)
      requires Valid() && fd in table
      modifies this`calls
      ensures Valid()
      ensures r.Ok? ==> HasEntry(table[fd].node, name) && r.value == table[fd].node.entries[name]
      ensures FaultFree() ==> (r.Ok? <==> HasEntry(table[fd].node, name))
    {
      calls := calls + 1;
      if fails(calls) || !HasEntry(table[fd].node, name) {
        return Err(OsError);
      }
      return Ok(table[fd].node.entries[name]);
    }

    /** open(name, O_NOFOLLOW [| O_DIRECTORY], dir_fd). */
    method OpenAt(fd: nat, name: Str, directory: bool) returns (r: Result<nat, OsError>)
      requires Valid() && fd in table
      modifies this
      ensures Valid()
      ensures match r
        case Ok(child) =>
          && child !in old(table)
          && HasEntry(old(table)[fd].node, name)
          && table == old(table)[child := Handle(old(table)[fd].node.entries[name], 0)]
          && |table| == |old(table)| + 1
          && peak == if |old(table)| + 1 > old(peak) then |old(table)| + 1 else old(peak)
        case Err(_) => table == old(table) && peak == old(peak)
      ensures FaultFree() ==>
        (r.Ok? <==> (HasEntry(old(table)[fd].node, name)
          && !old(table)[fd].node.entries[name].Link?
          && (directory ==> old(table)[fd].node.entries[name].Dir?)))
    {
      calls := calls + 1;
      if fails(calls) || !HasEntry(table[fd].node, name) {
        return Err(OsError);
      }
      var node := table[fd].node.entries[name];
      if node.Link? || (directory && !node.Dir?) {
        return Err(OsError);
      }
      var child := Admit(node);
      return Ok(child);
    }

    method Fstat(fd: nat) returns (r: Result<Node, OsError>)
      requires Valid() && fd in table
      modifies this`calls
      ensures Valid()
      ensures r.Ok? ==> r.value == table[fd].node
      ensures FaultFree() ==> r.Ok?
    {
      calls := calls + 1;
      if fails(calls) {
        return Err(OsError);
      }
      return Ok(table[fd].node);
    }

    /** close releases the descriptor even when it reports an error. */
    method Close(fd: nat) returns (ok: bool)
      requires Valid() && fd in table
      modifies this
      ensures Valid()
      ensures table == old(table) - {fd} && peak == old(peak) && |table| == |old(table)| - 1
      ensures FaultFree() ==> ok
    {
      calls := calls + 1;
      assert (table - {fd}).Keys == table.Keys - {fd};
      table := table - {fd};
      return !fails(calls);
    }

    /** lseek(fd, pos, SEEK_SET). */
    method Seek(fd: nat, pos: nat) returns (ok: bool)
      requires Valid() && fd in table
      modifies this`calls, this`table
      ensures Valid()
      ensures table == if ok then old(table)[fd := Handle(old(table)[fd].node, pos)] else old(table)
      ensures FaultFree() ==> ok
    {
      calls := calls + 1;
      if fails(calls) {
        return false;
      }
      assert table[fd := Handle(table[fd].node, pos)].Keys == table.Keys;
      table := table[fd := Handle(table[fd].node, pos)];
      return true;
    }

    /** read(fd, count): a failure, or some bytes, and none only at the end of the file. */
    method Read(fd: nat, count: nat) returns (r: Result<seq<Byte>, OsError>)
      requires Valid() && fd in table && table[fd].node.File? && count > 0
      modifies this`calls, this`table
      ensures Valid()
      ensures match r
        case Err(_) => table == old(table)
        case Ok(chunk) =>
          && var h := old(table)[fd];
          && |chunk| <= count
          && (chunk == [] <==> h.pos >= |h.node.bytes|)
          && (chunk != [] ==> (h.pos + |chunk| <= |h.node.bytes|
                               && chunk == h.node.bytes[h.pos..h.pos + |chunk|]))
          && table == old(table)[fd := Handle(h.node, h.pos + |chunk|)]
      ensures FaultFree() ==> r.Ok?
    {
      calls := calls + 1;
      if fails(calls) {
        return Err(OsError);
      }
      var h := table[fd];
      if h.pos >= |h.node.bytes| {
        assert table == table[fd := Handle(h.node, h.pos + 0)];
        return Ok([]);
      }
      var k := grants(calls);
      if k > count {
        k := count;
      }
      if k > |h.node.bytes| - h.pos {
        k := |h.node.bytes| - h.pos;
      }
      if k == 0 {
        k := 1;
      }
      var chunk := h.node.bytes[h.pos..h.pos + k];
      assert table[fd := Handle(h.node, h.pos + k)].Keys == table.Keys;
      table := table[fd := Handle(h.node, h.pos + k)];
      return Ok(chunk);
    }
  }
}
