/**
  A file table written from a tree, as a disc holds one: twelve bytes an entry -- whether it is a
  directory, where its name is, then its place and size or its parent and its end -- and the names
  after them, each ended by a zero. Such a table is read back as the tree it was written from.
 */
module FileTableEncoding {
  import opened FileTable

  function Three(n: nat): (b: Bytes)
    requires n < 0x100_0000
    ensures |b| == 3
  {
    [n / 0x1_0000, n / 256 % 256, n % 256]
  }

  function Four(n: nat): (b: Bytes)
    requires n < 0x1_0000_0000
    ensures |b| == 4
  {
    [n / 0x100_0000] + Three(n % 0x100_0000)
  }

  function EntryBytes(dir: bool, name: nat, a: nat, b: nat): (e: Bytes)
    requires name < 0x100_0000 && a < 0x1_0000_0000 && b < 0x1_0000_0000
    ensures |e| == FST_ENTRY
  {
    [if dir then 1 else 0] + Three(name) + Four(a) + Four(b)
  }

  /** The names, in the order of the entries. */
  function Strings(nodes: seq<Node>): Bytes {
    if nodes == [] then []
    else nodes[0].name + [0] + (if nodes[0].Dir? then Strings(nodes[0].nodes) else []) + Strings(nodes[1..])
  }

  /** Names without a zero in them, places and sizes of four bytes. */
  predicate Writable(nodes: seq<Node>) {
    nodes == [] ||
    (&& 0 !in nodes[0].name
     && (if nodes[0].Dir? then Writable(nodes[0].nodes) else nodes[0].off < 0x1_0000_0000 && nodes[0].size < 0x1_0000_0000)
     && Writable(nodes[1..]))
  }

  /** The entries of some nodes from number `at` on, in directory `parent`, their names from
      `name` on among the names. */
  function Rows(nodes: seq<Node>, parent: nat, at: nat, name: nat): (b: Bytes)
    requires Writable(nodes) && parent < at && at + Count(nodes) < 0x1_0000_0000 && name + |Strings(nodes)| <= 0x100_0000
    ensures |b| == FST_ENTRY * Count(nodes)
    decreases nodes
  {
    if nodes == [] then []
    else
      var more := name + |nodes[0].name| + 1;
      match nodes[0]
      case File(_, off, size) => EntryBytes(false, name, off, size) + Rows(nodes[1..], parent, at + 1, more)
      case Dir(_, inner) =>
        var end := at + 1 + Count(inner);
        EntryBytes(true, name, parent, end) + Rows(inner, at, at + 1, more) + Rows(nodes[1..], parent, end, more + |Strings(inner)|)
  }

  predicate Encodable(nodes: seq<Node>) {
    Writable(nodes) && 1 + Count(nodes) < 0x1_0000_0000 && |Strings(nodes)| <= 0x100_0000
  }

  /** The root's entry, which gives their number, the entries, and the names. */
  function Table(nodes: seq<Node>): Bytes
    requires Encodable(nodes)
  {
    EntryBytes(true, 0, 0, 1 + Count(nodes)) + Rows(nodes, 0, 1, 0) + Strings(nodes)
  }

  // ---- read back ------------------------------------------------------------------------------

  predicate Holds(p: Bytes, at: nat, b: Bytes) { at + |b| <= |p| && p[at..at + |b|] == b }

  lemma HoldsParts(p: Bytes, at: nat, a: Bytes, b: Bytes)
    requires Holds(p, at, a + b)
    ensures Holds(p, at, a) && Holds(p, at + |a|, b)
  {
    var c := a + b;
    assert p[at..at + |c|][..|a|] == c[..|a|] == a;
    assert p[at..at + |c|][|a|..] == c[|a|..] == b;
  }

  lemma HoldsItem(p: Bytes, at: nat, b: Bytes, i: nat)
    requires Holds(p, at, b) && i < |b|
    ensures at + i < |p| && p[at + i] == b[i]
  {
    assert p[at + i] == p[at..at + |b|][i];
  }

  lemma ThreeBack(p: Bytes, at: nat, n: nat)
    requires n < 0x100_0000 && Holds(p, at, Three(n))
    ensures at + 3 <= |p| && Be24(p, at) == n
  {
    HoldsItem(p, at, Three(n), 0);
    HoldsItem(p, at, Three(n), 1);
    HoldsItem(p, at, Three(n), 2);
  }

  lemma FourBack(p: Bytes, at: nat, n: nat)
    requires n < 0x1_0000_0000 && Holds(p, at, Four(n))
    ensures at + 4 <= |p| && Be32(p, at) == n
  {
    var low := n % 0x100_0000;
    HoldsParts(p, at, [n / 0x100_0000], Three(low));
    HoldsItem(p, at, [n / 0x100_0000], 0);
    ThreeBack(p, at + 1, low);
  }

  lemma NoZero(p: Bytes, at: nat, end: nat)
    requires at <= end <= |p| && 0 !in p[at..end]
    ensures forall j | at <= j < end :: p[j] != 0
  {
    forall j | at <= j < end ensures p[j] != 0 {
      assert p[j] == p[at..end][j - at];
    }
  }

  /** A name is as long as it was written. */
  lemma NameBack(p: Bytes, at: nat, name: Bytes)
    requires Holds(p, at, name + [0]) && 0 !in name
    ensures at <= |p| && Name(p, at) == Some(name)
  {
    HoldsParts(p, at, name, [0]);
    var n := |name|;
    HoldsItem(p, at + n, [0], 0);
    NoZero(p, at, at + n);
    var r := Length(p, at);
    NoZero(p, at, if r.None? then |p| else at + r.value);
  }

  /** An entry and its name, read. */
  lemma RowBack(fst: Bytes, i: nat, dir: bool, name: Bytes, noff: nat, a: nat, b: nat)
    requires HeaderOk(fst) && i < Entries(fst) && noff < 0x100_0000 && a < 0x1_0000_0000 && b < 0x1_0000_0000
    requires Holds(fst, FST_ENTRY * i, EntryBytes(dir, noff, a, b))
    requires Holds(fst, FST_ENTRY * Entries(fst) + noff, name + [0]) && 0 !in name
    ensures RowAt(fst, i) == Some(Row(dir, name, a, b))
  {
    var e, flag: Bytes := FST_ENTRY * i, [if dir then 1 else 0];
    hide Be24, Be32, Entries, Three, Four, Length, Name;
    HoldsParts(fst, e, flag + Three(noff) + Four(a), Four(b));
    HoldsParts(fst, e, flag + Three(noff), Four(a));
    HoldsParts(fst, e, flag, Three(noff));
    HoldsItem(fst, e, flag, 0);
    ThreeBack(fst, e + 1, noff);
    FourBack(fst, e + 4, a);
    FourBack(fst, e + 8, b);
    NameBack(fst, FST_ENTRY * Entries(fst) + noff, name);
  }

  /** The entries and the names written from some nodes are where they were written. */
  ghost predicate Wrote(fst: Bytes, nodes: seq<Node>, parent: nat, at: nat, name: nat) {
    && HeaderOk(fst) && at + Count(nodes) <= Entries(fst)
    && Writable(nodes) && parent < at && at + Count(nodes) < 0x1_0000_0000 && name + |Strings(nodes)| <= 0x100_0000
    && Holds(fst, FST_ENTRY * at, Rows(nodes, parent, at, name))
    && Holds(fst, FST_ENTRY * Entries(fst) + name, Strings(nodes))
  }

  lemma FileParts(nodes: seq<Node>, parent: nat, at: nat, name: nat)
    requires nodes != [] && nodes[0].File? && Writable(nodes)
    requires parent < at && at + Count(nodes) < 0x1_0000_0000 && name + |Strings(nodes)| <= 0x100_0000
    ensures var x, rest := nodes[0], nodes[1..];
            var more := name + |x.name| + 1;
            && 0 !in x.name && Writable(rest) && Count(nodes) == 1 + Count(rest) && more + |Strings(rest)| == name + |Strings(nodes)|
            && x.off < 0x1_0000_0000 && x.size < 0x1_0000_0000 && Strings(nodes) == (x.name + [0]) + Strings(rest)
            && Rows(nodes, parent, at, name) == EntryBytes(false, name, x.off, x.size) + Rows(rest, parent, at + 1, more)
  {
    hide EntryBytes;
  }

  lemma DirParts(nodes: seq<Node>, parent: nat, at: nat, name: nat)
    requires nodes != [] && nodes[0].Dir? && Writable(nodes)
    requires parent < at && at + Count(nodes) < 0x1_0000_0000 && name + |Strings(nodes)| <= 0x100_0000
    ensures var x, rest := nodes[0], nodes[1..];
            var more, end := name + |x.name| + 1, at + 1 + Count(x.nodes);
            && 0 !in x.name && Writable(rest) && Writable(x.nodes) && Count(nodes) == 1 + Count(x.nodes) + Count(rest)
            && more + |Strings(x.nodes)| + |Strings(rest)| == name + |Strings(nodes)|
            && Strings(nodes) == (x.name + [0]) + Strings(x.nodes) + Strings(rest)
            && Rows(nodes, parent, at, name)
               == EntryBytes(true, name, parent, end) + Rows(x.nodes, at, at + 1, more) + Rows(rest, parent, end, more + |Strings(x.nodes)|)
  {
    hide EntryBytes;
  }

  lemma Two(p: Bytes, at: nat, a: Bytes, b: Bytes, ab: Bytes)
    requires Holds(p, at, ab) && ab == a + b
    ensures Holds(p, at, a) && Holds(p, at + |a|, b)
  {
    HoldsParts(p, at, a, b);
  }

  lemma FileWrote(fst: Bytes, nodes: seq<Node>, parent: nat, at: nat, name: nat)
    requires Wrote(fst, nodes, parent, at, name) && nodes != [] && nodes[0].File?
    ensures at < Entries(fst) && RowAt(fst, at) == Some(Row(false, nodes[0].name, nodes[0].off, nodes[0].size))
    ensures Wrote(fst, nodes[1..], parent, at + 1, name + |nodes[0].name| + 1)
  {
    hide Holds, RowAt, EntryBytes, Be32, Rows, Strings, Writable, Count;
    FileParts(nodes, parent, at, name);
    var x, rest := nodes[0], nodes[1..];
    Two(fst, FST_ENTRY * Entries(fst) + name, x.name + [0], Strings(rest), Strings(nodes));
    Two(fst, FST_ENTRY * at, EntryBytes(false, name, x.off, x.size), Rows(rest, parent, at + 1, name + |x.name| + 1), Rows(nodes, parent, at, name));
    RowBack(fst, at, false, x.name, name, x.off, x.size);
  }

  lemma DirWrote(fst: Bytes, nodes: seq<Node>, parent: nat, at: nat, name: nat)
    requires Wrote(fst, nodes, parent, at, name) && nodes != [] && nodes[0].Dir?
    ensures var x := nodes[0];
            var end, more := at + 1 + Count(x.nodes), name + |x.name| + 1;
            && at < Entries(fst) && RowAt(fst, at) == Some(Row(true, x.name, parent, end))
            && Wrote(fst, x.nodes, at, at + 1, more) && Wrote(fst, nodes[1..], parent, end, more + |Strings(x.nodes)|)
  {
    hide Holds, RowAt, EntryBytes, Be32, Rows, Strings, Writable, Count;
    DirParts(nodes, parent, at, name);
    var x, rest, names := nodes[0], nodes[1..], FST_ENTRY * Entries(fst) + name;
    var end, more, ended := at + 1 + Count(x.nodes), name + |x.name| + 1, x.name + [0];
    var row, within := EntryBytes(true, name, parent, end), Rows(x.nodes, at, at + 1, more);
    Two(fst, names, ended + Strings(x.nodes), Strings(rest), Strings(nodes));
    HoldsParts(fst, names, ended, Strings(x.nodes));
    Two(fst, FST_ENTRY * at, row + within, Rows(rest, parent, end, more + |Strings(x.nodes)|), Rows(nodes, parent, at, name));
    HoldsParts(fst, FST_ENTRY * at, row, within);
    RowBack(fst, at, true, x.name, name, parent, end);
  }

  /** The entries written from nodes lay them out. */
  lemma {:induction false} RowsLayOut(fst: Bytes, nodes: seq<Node>, parent: nat, at: nat, name: nat)
    requires Wrote(fst, nodes, parent, at, name)
    ensures HeaderOk(fst) && LaidOut(fst, nodes, at)
    decreases nodes
  {
    hide Holds, RowAt, Be32, Rows, Strings;
    if nodes != [] {
      var x, rest, more := nodes[0], nodes[1..], name + |nodes[0].name| + 1;
      if x.File? {
        FileWrote(fst, nodes, parent, at, name);
        RowsLayOut(fst, rest, parent, at + 1, more);
      } else {
        DirWrote(fst, nodes, parent, at, name);
        RowsLayOut(fst, x.nodes, at, at + 1, more);
        RowsLayOut(fst, rest, parent, at + 1 + Count(x.nodes), more + |Strings(x.nodes)|);
      }
    }
  }

  lemma TableDescribes(nodes: seq<Node>)
    requires Encodable(nodes)
    ensures Describes(Table(nodes), nodes)
  {
    hide LaidOut, Rows, Strings, Be32, Four, Three;
    var n := 1 + Count(nodes);
    var root, rows, names, fst := EntryBytes(true, 0, 0, n), Rows(nodes, 0, 1, 0), Strings(nodes), Table(nodes);
    assert Holds(fst, 0, root + rows + names);
    HoldsParts(fst, 0, root + rows, names);
    HoldsParts(fst, 0, root, rows);
    HoldsParts(fst, 0, [1] + Three(0) + Four(0), Four(n));
    FourBack(fst, 8, n);
    RowsLayOut(fst, nodes, 0, 1, 0);
  }

  /** The theorem: a disc's table gives exactly the files of the tree it was written from. */
  lemma TableReadsBack(nodes: seq<Node>)
    requires Encodable(nodes)
    ensures |Table(nodes)| >= FST_ENTRY
    ensures Indexed(Table(nodes)) == if Fits(nodes, 0, 0) then Some(Files(nodes, [], 1)) else None
  {
    TableDescribes(nodes);
    IndexIsRecursiveWalk(Table(nodes), nodes);
  }
}
