/**
  The disc's file table (index_fst): a flat list of entries, a directory's running to the
  entry it names, walked with an explicit stack of 32 open directories and a path buffer of
  256 bytes. Proved: of a table that lays out a tree, the walk gives every file once, in
  order, with the path a recursive walk gives it, exactly when the tree fits the stack and
  the buffer; and of any other bytes it refuses or stays in bounds.
 */
module FileTable {
  type Byte = b: nat | b < 256
  type Bytes = seq<Byte>

  const FST_ENTRY: nat := 12
  const PATH_CAP: nat := 256
  const STACK: nat := 32
  const NAMES: nat := 0x1_0000
  const SLASH: Byte := 47

  datatype Option<T> = None | Some(value: T)

  // ---- entries ----------------------------------------------------------------------

  /** An entry: a file at `a` of `b` bytes, or a directory whose entries run to `b`. */
  datatype Row = Row(dir: bool, name: Bytes, a: nat, b: nat)

  /** A file as indexed: `order` is its entry's number. */
  datatype Found = Found(path: Bytes, off: nat, size: nat, order: nat)

  function Be32(p: Bytes, i: nat): nat
    requires i + 4 <= |p|
  {
    var p0: nat, p1: nat, p2: nat, p3: nat := p[i], p[i + 1], p[i + 2], p[i + 3];
    p0 * 0x100_0000 + p1 * 0x1_0000 + p2 * 256 + p3
  }

  function Be24(p: Bytes, i: nat): nat
    requires i + 3 <= |p|
  {
    var p0: nat, p1: nat, p2: nat := p[i], p[i + 1], p[i + 2];
    p0 * 0x1_0000 + p1 * 256 + p2
  }

  function Entries(fst: Bytes): nat
    requires FST_ENTRY <= |fst|
  {
    Be32(fst, 8)
  }

  predicate HeaderOk(fst: Bytes) {
    FST_ENTRY <= |fst| && 1 <= Entries(fst) <= |fst| / FST_ENTRY
  }

  /** The length of the string at `at`, or None when no byte before the end is 0 (memchr). */
  function Length(fst: Bytes, at: nat): (r: Option<nat>)
    requires at <= |fst|
    ensures r.Some? ==> at + r.value < |fst| && fst[at + r.value] == 0 && 0 !in fst[at..at + r.value]
    ensures r.None? ==> 0 !in fst[at..]
    decreases |fst| - at
  {
    if at == |fst| then None
    else if fst[at] == 0 then Some(0)
    else
      match Length(fst, at + 1)
      case None => None
      case Some(n) =>
        assert fst[at..at + 1 + n] == [fst[at]] + fst[at + 1..at + 1 + n];
        Some(n + 1)
  }

  function Name(fst: Bytes, at: nat): Option<Bytes>
    requires at <= |fst|
  {
    match Length(fst, at)
    case None => None
    case Some(n) => Some(fst[at..at + n])
  }

  /** Entry i, when its name lies in the string table and ends there. */
  function RowAt(fst: Bytes, i: nat): Option<Row>
    requires HeaderOk(fst) && i < Entries(fst)
  {
    var e, strings := i * FST_ENTRY, Entries(fst) * FST_ENTRY;
    if Be24(fst, e + 1) >= |fst| - strings then None
    else
      match Name(fst, strings + Be24(fst, e + 1))
      case None => None
      case Some(name) => Some(Row(fst[e] != 0, name, Be32(fst, e + 4), Be32(fst, e + 8)))
  }

  // ---- the walk, as a function ---------------------------------------------------------------

  /** An open directory: the first entry past it, and its path with the closing slash. */
  datatype Open = Open(end: nat, path: Bytes)

  function PathOf(st: seq<Open>): Bytes { if st == [] then [] else st[|st| - 1].path }

  /** Directories that closed before entry i. */
  function Close(st: seq<Open>, i: nat): (r: seq<Open>)
    ensures r <= st
  {
    if st != [] && i >= st[|st| - 1].end then Close(st[..|st| - 1], i) else st
  }

  datatype Step = Refused | Opens(st: seq<Open>) | Holds(file: Found)

  function StepAt(row: Option<Row>, st: seq<Open>, i: nat, n: nat): Step {
    if row.None? then Refused
    else
      var path := PathOf(st) + row.value.name;
      if |path| + 1 >= PATH_CAP then Refused
      else if row.value.dir then
        if row.value.b <= i || row.value.b > n || |st| == STACK then Refused
        else Opens(st + [Open(row.value.b, path + [SLASH])])
      else Holds(Found(path, row.value.a, row.value.b, i))
  }

  /** From entry i on, with directories st open: every file, or None for a table refused. */
  function Walk(fst: Bytes, i: nat, st: seq<Open>): Option<seq<Found>>
    requires HeaderOk(fst) && i <= Entries(fst)
    decreases Entries(fst) - i
  {
    if i == Entries(fst) then Some([])
    else
      var open := Close(st, i);
      match StepAt(RowAt(fst, i), open, i, Entries(fst))
      case Refused => None
      case Opens(deeper) => Walk(fst, i + 1, deeper)
      case Holds(f) =>
        match Walk(fst, i + 1, open)
        case None => None
        case Some(rest) => Some([f] + rest)
  }

  function Indexed(fst: Bytes): Option<seq<Found>>
    requires FST_ENTRY <= |fst|
  {
    if HeaderOk(fst) then Walk(fst, 1, []) else None
  }

  // ---- a tree, and the table that lays it out -------------------------------------------------

  datatype Node = File(name: Bytes, off: nat, size: nat) | Dir(name: Bytes, nodes: seq<Node>)

  /** Entries a list of nodes takes. */
  function Count(nodes: seq<Node>): (n: nat)
    ensures |nodes| <= n
  {
    if nodes == [] then 0
    else (if nodes[0].Dir? then 1 + Count(nodes[0].nodes) else 1) + Count(nodes[1..])
  }

  /** The table's entries from number `at` on lay out the nodes, each directory's entries
      right after it and its end just past them. A directory's first word, its parent's
      number, is not read. */
  ghost predicate LaidOut(fst: Bytes, nodes: seq<Node>, at: nat)
    requires HeaderOk(fst)
  {
    nodes == [] ||
    (&& at + Count(nodes) <= Entries(fst)
     && var row := RowAt(fst, at);
        && row.Some? && row.value.name == nodes[0].name
        && match nodes[0]
           case File(_, off, size) =>
             !row.value.dir && row.value.a == off && row.value.b == size && LaidOut(fst, nodes[1..], at + 1)
           case Dir(_, inner) =>
             && row.value.dir && row.value.b == at + 1 + Count(inner)
             && LaidOut(fst, inner, at + 1) && LaidOut(fst, nodes[1..], at + 1 + Count(inner)))
  }

  /** A table of exactly these nodes, after the root's own entry. */
  ghost predicate Describes(fst: Bytes, nodes: seq<Node>) {
    HeaderOk(fst) && Entries(fst) == 1 + Count(nodes) && LaidOut(fst, nodes, 1)
  }

  /** The recursive walk: every file by its full path, a directory before what follows it. */
  function Files(nodes: seq<Node>, path: Bytes, at: nat): seq<Found> {
    if nodes == [] then []
    else
      match nodes[0]
      case File(name, off, size) => [Found(path + name, off, size, at)] + Files(nodes[1..], path, at + 1)
      case Dir(name, inner) =>
        Files(inner, path + name + [SLASH], at + 1) + Files(nodes[1..], path, at + 1 + Count(inner))
  }

  /** Every path is shorter than the buffer and no directory lies deeper than the stack. */
  predicate Fits(nodes: seq<Node>, path: nat, depth: nat) {
    nodes == [] ||
    (&& path + |nodes[0].name| + 1 < PATH_CAP
     && (nodes[0].Dir? ==> depth < STACK && Fits(nodes[0].nodes, path + |nodes[0].name| + 1, depth + 1))
     && Fits(nodes[1..], path, depth))
  }

  // ---- the walk of a laid-out tree is the recursive walk ------------------------------------

  /** A directory that has closed makes no difference to what follows it. */
  lemma ClosedIsGone(fst: Bytes, i: nat, st: seq<Open>, o: Open)
    requires HeaderOk(fst) && i <= Entries(fst) && o.end <= i
    ensures Walk(fst, i, st + [o]) == Walk(fst, i, st)
  {
    assert (st + [o])[..|st|] == st;
    assert Close(st + [o], i) == Close(st, i);
  }

  function Joined(files: seq<Found>, rest: Option<seq<Found>>): Option<seq<Found>> {
    if rest.None? then None else Some(files + rest.value)
  }

  lemma JoinedJoins(a: seq<Found>, b: seq<Found>, rest: Option<seq<Found>>)
    ensures Joined(a, Joined(b, rest)) == Joined(a + b, rest)
    ensures Joined([], rest) == rest
  {
    if rest.Some? {
      assert a + (b + rest.value) == (a + b) + rest.value;
      assert [] + rest.value == rest.value;
    }
  }

  ghost predicate StaysOpen(st: seq<Open>, end: nat) { st == [] || end <= st[|st| - 1].end }

  /** Where the first node's entries end. */
  function Past(x: Node, at: nat): nat { if x.Dir? then at + 1 + Count(x.nodes) else at + 1 }

  ghost function Inside(x: Node, at: nat, st: seq<Open>): seq<Open>
    requires x.Dir?
  {
    st + [Open(Past(x, at), PathOf(st) + x.name + [SLASH])]
  }

  /** The first node's entry, and where the others' are. */
  lemma LaidFirst(fst: Bytes, nodes: seq<Node>, at: nat)
    requires HeaderOk(fst) && nodes != [] && at + Count(nodes) <= Entries(fst) && LaidOut(fst, nodes, at)
    ensures var x := nodes[0];
            && at < Past(x, at) <= Entries(fst)
            && Past(x, at) + Count(nodes[1..]) == at + Count(nodes) && LaidOut(fst, nodes[1..], Past(x, at))
            && (x.Dir? ==> LaidOut(fst, x.nodes, at + 1) && Past(x, at) == at + 1 + Count(x.nodes))
            && var row := RowAt(fst, at);
               && row.Some? && row.value.name == x.name && (row.value.dir <==> x.Dir?)
               && (if x.Dir? then row.value.b == Past(x, at) else row.value.a == x.off && row.value.b == x.size)
  {
    hide RowAt, HeaderOk, Entries;
  }

  /** What the walk does at an entry. */
  lemma WalkStep(fst: Bytes, at: nat, st: seq<Open>, row: Row)
    requires HeaderOk(fst) && at < Entries(fst) && RowAt(fst, at) == Some(row) && Close(st, at) == st
    ensures Walk(fst, at, st) ==
            if |PathOf(st)| + |row.name| + 1 >= PATH_CAP then None
            else if !row.dir then Joined([Found(PathOf(st) + row.name, row.a, row.b, at)], Walk(fst, at + 1, st))
            else if row.b <= at || row.b > Entries(fst) || |st| == STACK then None
            else Walk(fst, at + 1, st + [Open(row.b, PathOf(st) + row.name + [SLASH])])
  {
    hide RowAt, HeaderOk, Entries, Close, PathOf;
  }

  /** What the walk does at the first entry of some nodes. */
  lemma WalkFirst(fst: Bytes, nodes: seq<Node>, at: nat, st: seq<Open>)
    requires HeaderOk(fst) && nodes != [] && at + Count(nodes) <= Entries(fst) && LaidOut(fst, nodes, at)
    requires StaysOpen(st, at + Count(nodes))
    ensures var x := nodes[0];
            Walk(fst, at, st) ==
            if |PathOf(st)| + |x.name| + 1 >= PATH_CAP then None
            else if x.File? then Joined([Found(PathOf(st) + x.name, x.off, x.size, at)], Walk(fst, at + 1, st))
            else if |st| == STACK then None
            else Walk(fst, at + 1, Inside(x, at, st))
  {
    hide *;
    LaidFirst(fst, nodes, at);
    StaysPast(st, at, at + Count(nodes));
    WalkStep(fst, at, st, RowAt(fst, at).value);
    if nodes[0].Dir? {
      InsideIs(nodes[0], at, st);
    }
  }

  lemma StaysPast(st: seq<Open>, at: nat, end: nat)
    requires StaysOpen(st, end) && at < end
    ensures Close(st, at) == st
  {
  }

  lemma InsideIs(x: Node, at: nat, st: seq<Open>)
    requires x.Dir?
    ensures Inside(x, at, st) == st + [Open(Past(x, at), PathOf(st) + x.name + [SLASH])]
  {
  }

  lemma FitsFirst(nodes: seq<Node>, path: nat, depth: nat)
    requires nodes != []
    ensures var x := nodes[0];
            Fits(nodes, path, depth) <==>
              && path + |x.name| + 1 < PATH_CAP
              && (x.Dir? ==> depth < STACK && Fits(x.nodes, path + |x.name| + 1, depth + 1))
              && Fits(nodes[1..], path, depth)
  {
  }

  lemma FilesFirst(nodes: seq<Node>, path: Bytes, at: nat)
    requires nodes != []
    ensures var x := nodes[0];
            Files(nodes, path, at) ==
            (if x.File? then [Found(path + x.name, x.off, x.size, at)] else Files(x.nodes, path + x.name + [SLASH], at + 1))
            + Files(nodes[1..], path, Past(x, at))
  {
  }

  lemma InsideFacts(x: Node, at: nat, st: seq<Open>)
    requires x.Dir?
    ensures PathOf(Inside(x, at, st)) == PathOf(st) + x.name + [SLASH] && |Inside(x, at, st)| == |st| + 1
    ensures |PathOf(Inside(x, at, st))| == |PathOf(st)| + |x.name| + 1
    ensures StaysOpen(Inside(x, at, st), at + 1 + Count(x.nodes)) && at + 1 + Count(x.nodes) == Past(x, at)
  {
  }

  lemma NoNodes(fst: Bytes, at: nat, st: seq<Open>)
    requires HeaderOk(fst) && at <= Entries(fst)
    ensures Count([]) == 0 && Fits([], |PathOf(st)|, |st|)
    ensures Walk(fst, at, st) == Joined(Files([], PathOf(st), at), Walk(fst, at, st))
  {
    JoinedJoins([], [], Walk(fst, at, st));
  }

  /** The recursive walk's files, then whatever the walk finds from `after` on. */
  ghost function Walked(fst: Bytes, nodes: seq<Node>, at: nat, st: seq<Open>, after: nat): Option<seq<Found>>
    requires HeaderOk(fst) && after <= Entries(fst)
  {
    if Fits(nodes, |PathOf(st)|, |st|) then Joined(Files(nodes, PathOf(st), at), Walk(fst, after, st)) else None
  }

  /** Walking the entries of some nodes, inside directories that stay open past them. */
  lemma {:induction false} WalkOfNodes(fst: Bytes, nodes: seq<Node>, at: nat, st: seq<Open>)
    requires HeaderOk(fst) && at + Count(nodes) <= Entries(fst) && LaidOut(fst, nodes, at)
    requires StaysOpen(st, at + Count(nodes)) && |st| <= STACK
    ensures Walk(fst, at, st) == Walked(fst, nodes, at, st, at + Count(nodes))
    decreases nodes
  {
    hide *;
    if nodes == [] {
      NoNodes(fst, at, st);
      WalkedIs(fst, [], at, st, at);
    } else {
      var x := nodes[0];
      LaidFirst(fst, nodes, at);
      StaysOpenSooner(st, nodes, at);
      WalkOfNodes(fst, nodes[1..], Past(x, at), st);
      if x.File? {
        FilePast(x, at);
        FileFirst(fst, nodes, at, st);
      } else {
        if |st| < STACK {
          InsideFacts(x, at, st);
          WalkOfNodes(fst, x.nodes, at + 1, Inside(x, at, st));
        }
        DirFirst(fst, nodes, at, st);
      }
    }
  }

  lemma FileFirst(fst: Bytes, nodes: seq<Node>, at: nat, st: seq<Open>)
    requires HeaderOk(fst) && nodes != [] && nodes[0].File?
    requires at + Count(nodes) <= Entries(fst) && LaidOut(fst, nodes, at) && StaysOpen(st, at + Count(nodes))
    requires Walk(fst, at + 1, st) == Walked(fst, nodes[1..], at + 1, st, at + Count(nodes))
    ensures Walk(fst, at, st) == Walked(fst, nodes, at, st, at + Count(nodes))
  {
    hide *;
    var x, path, after := nodes[0], PathOf(st), at + Count(nodes);
    WalkFirst(fst, nodes, at, st);
    FitsFirst(nodes, |path|, |st|);
    FilesFirst(nodes, path, at);
    FilePast(x, at);
    WalkedIs(fst, nodes, at, st, after);
    WalkedIs(fst, nodes[1..], at + 1, st, after);
    JoinedJoins([Found(path + x.name, x.off, x.size, at)], Files(nodes[1..], path, at + 1), Walk(fst, after, st));
    RefusedStays([Found(path + x.name, x.off, x.size, at)]);
  }

  lemma DirFirst(fst: Bytes, nodes: seq<Node>, at: nat, st: seq<Open>)
    requires HeaderOk(fst) && nodes != [] && nodes[0].Dir? && Past(nodes[0], at) <= Entries(fst)
    requires at + Count(nodes) <= Entries(fst) && LaidOut(fst, nodes, at) && StaysOpen(st, at + Count(nodes))
    requires |st| < STACK ==> Walk(fst, at + 1, Inside(nodes[0], at, st)) == Walked(fst, nodes[0].nodes, at + 1, Inside(nodes[0], at, st), Past(nodes[0], at))
    requires Walk(fst, Past(nodes[0], at), st) == Walked(fst, nodes[1..], Past(nodes[0], at), st, at + Count(nodes))
    ensures |st| <= STACK ==> Walk(fst, at, st) == Walked(fst, nodes, at, st, at + Count(nodes))
  {
    hide *;
    var x, path, after := nodes[0], PathOf(st), at + Count(nodes);
    WalkFirst(fst, nodes, at, st);
    FitsFirst(nodes, |path|, |st|);
    FilesFirst(nodes, path, at);
    WalkedIs(fst, nodes, at, st, after);
    if |path| + |x.name| + 1 < PATH_CAP && |st| < STACK {
      InsideFacts(x, at, st);
      InsideCloses(fst, x, at, st);
      WalkedIs(fst, nodes[1..], Past(x, at), st, after);
      WalkedIs(fst, x.nodes, at + 1, Inside(x, at, st), Past(x, at));
      RefusedStays(Files(x.nodes, path + x.name + [SLASH], at + 1));
      JoinedJoins(Files(x.nodes, path + x.name + [SLASH], at + 1), Files(nodes[1..], path, Past(x, at)), Walk(fst, after, st));
    }
  }

  lemma WalkedIs(fst: Bytes, nodes: seq<Node>, at: nat, st: seq<Open>, after: nat)
    requires HeaderOk(fst) && after <= Entries(fst)
    ensures Walked(fst, nodes, at, st, after) ==
            if Fits(nodes, |PathOf(st)|, |st|) then Joined(Files(nodes, PathOf(st), at), Walk(fst, after, st)) else None
  {
  }

  lemma RefusedStays(files: seq<Found>)
    ensures Joined(files, None) == None
  {
  }

  lemma FilePast(x: Node, at: nat)
    requires x.File?
    ensures Past(x, at) == at + 1
  {
  }

  lemma StaysOpenSooner(st: seq<Open>, nodes: seq<Node>, at: nat)
    requires StaysOpen(st, at + Count(nodes)) && nodes != []
    ensures StaysOpen(st, Past(nodes[0], at) + Count(nodes[1..]))
  {
  }

  lemma InsideCloses(fst: Bytes, x: Node, at: nat, st: seq<Open>)
    requires HeaderOk(fst) && x.Dir? && Past(x, at) <= Entries(fst)
    ensures Walk(fst, Past(x, at), Inside(x, at, st)) == Walk(fst, Past(x, at), st)
  {
    ClosedIsGone(fst, Past(x, at), st, Open(Past(x, at), PathOf(st) + x.name + [SLASH]));
  }

  /** The theorem: the table of a tree is indexed exactly when the tree fits, as the
      recursive walk would. */
  lemma IndexIsRecursiveWalk(fst: Bytes, nodes: seq<Node>)
    requires FST_ENTRY <= |fst| && Describes(fst, nodes)
    ensures Indexed(fst) == if Fits(nodes, 0, 0) then Some(Files(nodes, [], 1)) else None
    ensures Indexed(fst).Some? ==> |Indexed(fst).value| == FileCount(nodes)
  {
    AtTheEnd(fst);
    assert HeaderOk(fst) && PathOf([]) == [] && StaysOpen([], 1 + Count(nodes));
    hide *;
    WalkOfNodes(fst, nodes, 1, []);
    WalkedIs(fst, nodes, 1, [], Entries(fst));
    JoinedEnd(Files(nodes, [], 1));
    EveryFile(nodes, [], 1);
  }

  lemma AtTheEnd(fst: Bytes)
    requires HeaderOk(fst)
    ensures Indexed(fst) == Walk(fst, 1, []) && Walk(fst, Entries(fst), []) == Some([])
  {
  }

  lemma JoinedEnd(files: seq<Found>)
    ensures Joined(files, Some([])) == Some(files)
  {
    assert files + [] == files;
  }

  ghost predicate Rising(files: seq<Found>, lo: nat, hi: nat) {
    && (forall i | 0 <= i < |files| :: lo <= files[i].order < hi)
    && (forall i, j | 0 <= i < j < |files| :: files[i].order < files[j].order)
  }

  lemma RisingJoins(a: seq<Found>, b: seq<Found>, lo: nat, mid: nat, hi: nat)
    requires Rising(a, lo, mid) && Rising(b, mid, hi) && lo <= mid <= hi
    ensures Rising(a + b, lo, hi)
  {
  }

  /** And each file comes once: their entries' numbers rise. */
  lemma {:induction false} FilesInOrder(nodes: seq<Node>, path: Bytes, at: nat)
    ensures Rising(Files(nodes, path, at), at, at + Count(nodes))
    decreases nodes
  {
    if nodes == [] {
      assert Files(nodes, path, at) == [];
    } else {
      var x := nodes[0];
      CountFirst(nodes, at);
      FilesFirst(nodes, path, at);
      if x.File? {
        var one := [Found(path + x.name, x.off, x.size, at)];
        assert Rising(one, at, at + 1);
        hide *;
        FilesInOrder(nodes[1..], path, Past(x, at));
        RisingJoins(one, Files(nodes[1..], path, Past(x, at)), at, Past(x, at), at + Count(nodes));
      } else {
        hide *;
        FilesInOrder(nodes[1..], path, Past(x, at));
        FilesInOrder(x.nodes, path + x.name + [SLASH], at + 1);
        RisingWiden(Files(x.nodes, path + x.name + [SLASH], at + 1), at, Past(x, at));
        RisingJoins(Files(x.nodes, path + x.name + [SLASH], at + 1), Files(nodes[1..], path, Past(x, at)), at, Past(x, at), at + Count(nodes));
      }
    }
  }

  lemma RisingWiden(files: seq<Found>, lo: nat, hi: nat)
    requires Rising(files, lo + 1, hi)
    ensures Rising(files, lo, hi)
  {
  }

  lemma CountFirst(nodes: seq<Node>, at: nat)
    requires nodes != []
    ensures at < Past(nodes[0], at) && Past(nodes[0], at) + Count(nodes[1..]) == at + Count(nodes)
    ensures nodes[0].Dir? ==> Past(nodes[0], at) == at + 1 + Count(nodes[0].nodes)
    ensures nodes[0].File? ==> Past(nodes[0], at) == at + 1
  {
  }

  /** How many files the tree has; the recursive walk gives as many. */
  function FileCount(nodes: seq<Node>): nat {
    if nodes == [] then 0
    else (if nodes[0].File? then 1 else FileCount(nodes[0].nodes)) + FileCount(nodes[1..])
  }

  lemma {:induction false} EveryFile(nodes: seq<Node>, path: Bytes, at: nat)
    ensures |Files(nodes, path, at)| == FileCount(nodes)
  {
    if nodes != [] {
      match nodes[0]
      case File(_, _, _) =>
        EveryFile(nodes[1..], path, at + 1);
      case Dir(name, inner) =>
        EveryFile(inner, path + name + [SLASH], at + 1);
        EveryFile(nodes[1..], path, at + 1 + Count(inner));
    }
  }

  // ---- the walk, in place -------------------------------------------------------------------

  /** A file as the index keeps it: its path is at `name` in the pool of names. */
  datatype Extent = Extent(off: nat, size: nat, name: nat, order: nat)

  /** The pool holds the path, and a 0 after it. */
  ghost predicate NameIs(pool: Bytes, at: nat, path: Bytes) {
    at + |path| < |pool| && pool[at..at + |path|] == path && pool[at + |path|] == 0
  }

  ghost predicate Keeps(ext: seq<Extent>, pool: Bytes, files: seq<Found>) {
    && |ext| == |files|
    && forall k | 0 <= k < |ext| ::
         && ext[k].off == files[k].off && ext[k].size == files[k].size && ext[k].order == files[k].order
         && NameIs(pool, ext[k].name, files[k].path)
  }

  /** The open directories, as the stack's arrays hold them: where each ends, how long the
      path down to it is, and the path itself in the buffer. */
  ghost predicate StackIs(st: seq<Open>, depth: nat, next: seq<nat>, prefix: seq<nat>, path: Bytes) {
    && depth == |st| <= STACK == |next| && |prefix| == STACK + 1 && |path| == PATH_CAP
    && (forall d | 0 <= d < depth :: next[d] == st[d].end)
    && (forall d | 0 <= d <= depth :: prefix[d] <= prefix[depth] < PATH_CAP && path[..prefix[d]] == PathOf(st[..d]))
    && (forall d, e | 0 <= d <= e <= depth :: prefix[d] <= prefix[e])
  }

  lemma KeepsMore(ext: seq<Extent>, pool: Bytes, files: seq<Found>, f: Found, e: Extent)
    requires Keeps(ext, pool, files)
    requires e.off == f.off && e.size == f.size && e.order == f.order && e.name == |pool|
    ensures Keeps(ext + [e], pool + f.path + [0], files + [f])
  {
    var pool' := pool + f.path + [0];
    assert pool'[|pool|..|pool| + |f.path|] == f.path;
    forall k | 0 <= k < |ext|
      ensures NameIs(pool', ext[k].name, files[k].path)
    {
      var at, n := ext[k].name, |files[k].path|;
      assert pool'[at..at + n] == pool[at..at + n];
    }
  }

  lemma CloseTake(st: seq<Open>, d: nat, i: nat)
    requires d <= |st|
    ensures Close(st[..d], i) == if 0 < d && st[d - 1].end <= i then Close(st[..d - 1], i) else st[..d]
  {
    if 0 < d {
      assert st[..d][..d - 1] == st[..d - 1];
    }
  }

  /** Directories that closed before entry i come off the stack. */
  method CloseDone(i: nat, depth: nat, next: array<nat>, ghost st: seq<Open>) returns (d: nat)
    requires depth == |st| <= next.Length && forall k | 0 <= k < depth :: next[k] == st[k].end
    ensures d <= depth && Close(st, i) == st[..d]
  {
    d := depth;
    assert st[..d] == st;
    while d > 0 && i >= next[d - 1]
      invariant d <= depth && Close(st[..d], i) == Close(st, i)
    {
      CloseTake(st, d, i);
      d := d - 1;
    }
    CloseTake(st, d, i);
  }

  /** memchr for the 0 that ends a name. */
  method FindEnd(fst: Bytes, at: nat) returns (r: Option<nat>)
    requires at <= |fst|
    ensures r == Length(fst, at)
  {
    var k := at;
    while k < |fst| && fst[k] != 0
      invariant at <= k <= |fst|
      invariant Length(fst, at) == match Length(fst, k) { case None => None case Some(n) => Some(n + (k - at)) }
    {
      k := k + 1;
    }
    return if k < |fst| then Some(k - at) else None;
  }

  /** The name after the open directories' path. */
  method PutName(path: array<Byte>, at: nat, name: Bytes)
    requires at + |name| + 1 < path.Length
    modifies path
    ensures path[..at] == old(path[..at]) && path[..at + |name|] == old(path[..at]) + name
    ensures path[at + |name|] == 0
  {
    ghost var front := path[..at];
    var k := 0;
    while k < |name|
      invariant 0 <= k <= |name|
      invariant path[..at + k] == front + name[..k]
    {
      path[at + k] := name[k];
      k := k + 1;
    }
    assert name[..k] == name;
    assert path[..at] == (front + name)[..at] == front;
    path[at + |name|] := 0;
  }

  lemma StackPops(st: seq<Open>, depth: nat, d: nat, next: seq<nat>, prefix: seq<nat>, path: Bytes)
    requires StackIs(st, depth, next, prefix, path) && d <= depth
    ensures StackIs(st[..d], d, next, prefix, path)
  {
    forall k | 0 <= k <= d
      ensures st[..d][..k] == st[..k]
    {
    }
  }

  lemma StackTop(st: seq<Open>, depth: nat, next: seq<nat>, prefix: seq<nat>, path: Bytes)
    requires StackIs(st, depth, next, prefix, path)
    ensures depth <= STACK < |prefix| && prefix[depth] < PATH_CAP == |path| && path[..prefix[depth]] == PathOf(st)
  {
    assert st[..depth] == st;
  }

  /** Writing past the open directories' path disturbs none of them. */
  lemma StackKept(st: seq<Open>, depth: nat, next: seq<nat>, prefix: seq<nat>, path: Bytes, path': Bytes)
    requires StackIs(st, depth, next, prefix, path) && |path'| == |path|
    requires path'[..prefix[depth]] == path[..prefix[depth]]
    ensures StackIs(st, depth, next, prefix, path')
  {
    forall d | 0 <= d <= depth
      ensures path'[..prefix[d]] == path[..prefix[d]]
    {
      assert path'[..prefix[d]] == path'[..prefix[depth]][..prefix[d]];
      assert path[..prefix[d]] == path[..prefix[depth]][..prefix[d]];
    }
  }

  /** Opening a directory whose name was just put in the buffer. */
  lemma StackPushes(st: seq<Open>, depth: nat, next: seq<nat>, prefix: seq<nat>, path: Bytes, end: nat, name: Bytes)
    requires StackIs(st, depth, next, prefix, path) && depth < STACK && prefix[depth] + |name| + 1 < PATH_CAP
    requires path[..prefix[depth] + |name|] == PathOf(st) + name
    ensures var at := prefix[depth] + |name|;
            StackIs(st + [Open(end, PathOf(st) + name + [SLASH])], depth + 1, next[depth := end], prefix[depth + 1 := at + 1], path[at := SLASH])
  {
    var at := prefix[depth] + |name|;
    var st', next', prefix', path' := st + [Open(end, PathOf(st) + name + [SLASH])], next[depth := end], prefix[depth + 1 := at + 1], path[at := SLASH];
    assert path'[..at] == path[..at];
    assert path'[..at + 1] == PathOf(st) + name + [SLASH];
    forall d | 0 <= d <= depth
      ensures st'[..d] == st[..d] && path'[..prefix[d]] == path[..prefix[d]]
    {
    }
    assert st'[..depth + 1] == st';
  }

  /** What an entry came to: a file's path is in the buffer, `at` bytes of it. */
  datatype Came = Bad | Opened | Filed(at: nat, off: nat, size: nat)

  ghost predicate CameTo(c: Came, s: Step, open: seq<Open>, depth: nat, next: seq<nat>, prefix: seq<nat>, path: Bytes) {
    match s
    case Refused => c.Bad?
    case Opens(deeper) => c.Opened? && StackIs(deeper, depth, next, prefix, path)
    case Holds(f) =>
      && c.Filed? && StackIs(open, depth, next, prefix, path) && |path| == PATH_CAP
      && c.at == |f.path| < PATH_CAP && path[..c.at] == f.path && path[c.at] == 0 && c.off == f.off && c.size == f.size
  }

  /** An entry whose name has been found, with the directories it lies in open. */
  method Place(i: nat, n: nat, row: Row, depth0: nat, next: array<nat>, prefix: array<nat>, path: array<Byte>, ghost open: seq<Open>)
      returns (c: Came, depth: nat)
    requires StackIs(open, depth0, next[..], prefix[..], path[..]) && next != prefix
    modifies next, prefix, path
    ensures CameTo(c, StepAt(Some(row), open, i, n), open, depth, next[..], prefix[..], path[..])
  {
    depth := depth0;
    StackTop(open, depth, next[..], prefix[..], path[..]);
    if prefix[depth] + |row.name| + 1 >= PATH_CAP {
      return Bad, depth;
    }
    hide StackIs;
    ghost var was, above := path[..], prefix[depth];
    var at := prefix[depth] + |row.name|;
    PutName(path, prefix[depth], row.name);
    assert path[..][..above] == path[..above] && was[..above] == old(path[..above]);
    StackKept(open, depth, next[..], prefix[..], was, path[..]);
    if !row.dir {
      c := Filed(at, row.a, row.b);
      assert path[..][..at] == path[..at];
      return;
    }
    if row.b <= i || row.b > n || depth == STACK {
      return Bad, depth;
    }
    assert path[..][..at] == path[..at];
    c := Opened;
    depth := OpenDir(row.b, row.name, at, depth, next, prefix, path, open);
  }

  /** A directory goes on the stack. */
  method OpenDir(end: nat, ghost name: Bytes, at: nat, depth0: nat, next: array<nat>, prefix: array<nat>, path: array<Byte>,
                 ghost open: seq<Open>) returns (depth: nat)
    requires StackIs(open, depth0, next[..], prefix[..], path[..]) && next != prefix && depth0 < STACK
    requires at == prefix[depth0] + |name| && at + 1 < PATH_CAP && path[..][..at] == PathOf(open) + name
    modifies next, prefix, path
    ensures StackIs(open + [Open(end, PathOf(open) + name + [SLASH])], depth, next[..], prefix[..], path[..])
  {
    depth := depth0;
    StackPushes(open, depth, next[..], prefix[..], path[..], end, name);
    hide StackIs, PathOf;
    next[depth] := end;
    path[at] := SLASH;
    prefix[depth + 1] := at + 1;
    assert next[..] == old(next[..])[depth := end];
    assert prefix[..] == old(prefix[..])[depth + 1 := at + 1];
    assert path[..] == old(path[..])[at := SLASH];
    depth := depth + 1;
  }

  /** An entry, its name bounded by the string table. */
  method ReadRow(fst: Bytes, i: nat) returns (row: Option<Row>)
    requires HeaderOk(fst) && i < Entries(fst)
    ensures row == RowAt(fst, i)
  {
    var e, strings := i * FST_ENTRY, Entries(fst) * FST_ENTRY;
    var noff := Be24(fst, e + 1);
    if noff >= |fst| - strings {
      return None;
    }
    var end := FindEnd(fst, strings + noff);
    if end == None {
      return None;
    }
    var name := fst[strings + noff..strings + noff + end.value];
    row := Some(Row(fst[e] != 0, name, Be32(fst, e + 4), Be32(fst, e + 8)));
  }

  /** Entry i of the table, once the directories that closed before it are off the stack. */
  method Entry(fst: Bytes, i: nat, depth0: nat, next: array<nat>, prefix: array<nat>, path: array<Byte>, ghost st: seq<Open>)
      returns (c: Came, depth: nat)
    requires HeaderOk(fst) && i < Entries(fst) && StackIs(st, depth0, next[..], prefix[..], path[..]) && next != prefix
    modifies next, prefix, path
    ensures CameTo(c, StepAt(RowAt(fst, i), Close(st, i), i, Entries(fst)), Close(st, i), depth, next[..], prefix[..], path[..])
  {
    depth := CloseDone(i, depth0, next, st);
    StackPops(st, depth0, depth, next[..], prefix[..], path[..]);
    var row := ReadRow(fst, i);
    if row == None {
      return Bad, depth;
    }
    c, depth := Place(i, Entries(fst), row.value, depth, next, prefix, path, st[..depth]);
  }

  /** Where the walk stands: the files so far, and what the rest of the walk will add. */
  ghost predicate SoFar(fst: Bytes, i: nat, st: seq<Open>, files: seq<Found>)
    requires HeaderOk(fst) && i <= Entries(fst)
  {
    Walk(fst, 1, []) == Joined(files, Walk(fst, i, st))
  }

  lemma SoFarSteps(fst: Bytes, i: nat, st: seq<Open>, files: seq<Found>)
    requires HeaderOk(fst) && i < Entries(fst) && SoFar(fst, i, st, files)
    ensures match StepAt(RowAt(fst, i), Close(st, i), i, Entries(fst))
            case Refused => Walk(fst, 1, []) == None
            case Opens(deeper) => SoFar(fst, i + 1, deeper, files)
            case Holds(f) => SoFar(fst, i + 1, Close(st, i), files + [f]) && f.order == i
  {
    hide RowAt, Entries, Close, PathOf;
    match StepAt(RowAt(fst, i), Close(st, i), i, Entries(fst))
    case Refused =>
    case Opens(deeper) =>
    case Holds(f) => JoinedJoins(files, [f], Walk(fst, i + 1, Close(st, i)));
  }

  /** A file goes into the index, its path into the pool, which is doubled when full. */
  method Add(ext0: seq<Extent>, pool0: Bytes, cap0: nat, path: array<Byte>, at: nat, e: Extent, ghost files: seq<Found>, ghost f: Found)
      returns (ext: seq<Extent>, pool: Bytes, cap: nat)
    requires Keeps(ext0, pool0, files) && at < PATH_CAP == path.Length && path[..at] == f.path
    requires e == Extent(f.off, f.size, |pool0|, f.order) && |pool0| <= cap0 && NAMES <= cap0
    ensures Keeps(ext, pool, files + [f]) && |pool| <= cap && NAMES <= cap
  {
    cap := cap0;
    if |pool0| + at + 1 > cap {
      cap := cap * 2;
    }
    KeepsMore(ext0, pool0, files, f, e);
    hide Keeps;
    ext := ext0 + [e];
    pool := pool0 + path[..at] + [0];
  }

  lemma CameFacts(c: Came, s: Step, open: seq<Open>, depth: nat, next: seq<nat>, prefix: seq<nat>, path: Bytes)
    requires CameTo(c, s, open, depth, next, prefix, path)
    ensures match c
            case Bad => s.Refused?
            case Opened => s.Opens? && StackIs(s.st, depth, next, prefix, path)
            case Filed(at, off, size) =>
              && s.Holds? && StackIs(open, depth, next, prefix, path) && off == s.file.off && size == s.file.size
              && at < PATH_CAP == |path| && path[..at] == s.file.path
  {
  }

  /** Where index_fst's loop stands. */
  ghost predicate Underway(fst: Bytes, i: nat, st: seq<Open>, files: seq<Found>, depth: nat, next: seq<nat>, prefix: seq<nat>,
                           path: Bytes, ext: seq<Extent>, pool: Bytes)
    requires HeaderOk(fst) && i <= Entries(fst)
  {
    StackIs(st, depth, next, prefix, path) && SoFar(fst, i, st, files) && Keeps(ext, pool, files)
  }

  lemma Begins(fst: Bytes, next: seq<nat>, prefix: seq<nat>, path: Bytes)
    requires HeaderOk(fst) && |next| == STACK && |prefix| == STACK + 1 && prefix[0] == 0 && |path| == PATH_CAP
    ensures Underway(fst, 1, [], [], 0, next, prefix, path, [], [])
  {
    JoinedJoins([], [], Walk(fst, 1, []));
    assert path[..0] == [];
  }

  /** One turn of the loop. */
  method Turn(fst: Bytes, i: nat, depth0: nat, next: array<nat>, prefix: array<nat>, path: array<Byte>,
              ext0: seq<Extent>, pool0: Bytes, cap0: nat, ghost st0: seq<Open>, ghost files0: seq<Found>)
      returns (ok: bool, depth: nat, ext: seq<Extent>, pool: Bytes, cap: nat, ghost st: seq<Open>, ghost files: seq<Found>)
    requires HeaderOk(fst) && i < Entries(fst) && next != prefix && path.Length == PATH_CAP
    requires Underway(fst, i, st0, files0, depth0, next[..], prefix[..], path[..], ext0, pool0)
    requires |pool0| <= cap0 && NAMES <= cap0
    modifies next, prefix, path
    ensures !ok ==> Walk(fst, 1, []) == None
    ensures ok ==> Underway(fst, i + 1, st, files, depth, next[..], prefix[..], path[..], ext, pool)
    ensures ok ==> |pool| <= cap && NAMES <= cap
  {
    SoFarSteps(fst, i, st0, files0);
    hide StackIs, Walk, RowAt, Close, Keeps, SoFar, CameTo, StepAt, Entries, HeaderOk;
    ok, ext, pool, cap, st, files := true, ext0, pool0, cap0, st0, files0;
    var c;
    c, depth := Entry(fst, i, depth0, next, prefix, path, st0);
    ghost var step := StepAt(RowAt(fst, i), Close(st0, i), i, Entries(fst));
    CameFacts(c, step, Close(st0, i), depth, next[..], prefix[..], path[..]);
    match c {
      case Bad => ok := false;
      case Opened => st := step.st;
      case Filed(at, off, size) =>
        assert path[..at] == path[..][..at];
        ext, pool, cap := Add(ext0, pool0, cap0, path, at, Extent(off, size, |pool0|, i), files0, step.file);
        st, files := Close(st0, i), files0 + [step.file];
    }
  }

  /** index_fst, up to its sort. */
  method IndexFst(fst: Bytes) returns (ok: bool, ext: seq<Extent>, pool: Bytes)
    requires FST_ENTRY <= |fst|
    ensures ok <==> Indexed(fst).Some?
    ensures ok ==> Keeps(ext, pool, Indexed(fst).value)
  {
    ext, pool, ok := [], [], true;
    var n := Entries(fst);
    if n == 0 || n > |fst| / FST_ENTRY {
      return false, [], [];
    }
    var next, prefix, path := new nat[STACK], new nat[STACK + 1](_ => 0), new Byte[PATH_CAP](_ => 0);
    var cap, depth, i := NAMES, 0, 1;
    ghost var st: seq<Open>, files: seq<Found> := [], [];
    Begins(fst, next[..], prefix[..], path[..]);
    hide Underway, Walk, Entries, Keeps;
    while i < n
      invariant 1 <= i <= n && NAMES <= cap && |pool| <= cap && ok
      invariant Underway(fst, i, st, files, depth, next[..], prefix[..], path[..], ext, pool)
    {
      ok, depth, ext, pool, cap, st, files := Turn(fst, i, depth, next, prefix, path, ext, pool, cap, st, files);
      if !ok {
        return false, [], [];
      }
      i := i + 1;
    }
    AllSoFar(fst, st, files, depth, next[..], prefix[..], path[..], ext, pool);
  }

  lemma AllSoFar(fst: Bytes, st: seq<Open>, files: seq<Found>, depth: nat, next: seq<nat>, prefix: seq<nat>, path: Bytes,
                 ext: seq<Extent>, pool: Bytes)
    requires HeaderOk(fst) && Underway(fst, Entries(fst), st, files, depth, next, prefix, path, ext, pool)
    ensures Walk(fst, 1, []) == Some(files) && Keeps(ext, pool, files)
  {
    assert files + [] == files;
    hide StackIs, Keeps, RowAt;
  }
}
