/** The directory trees the image scripts walk with
    `readdir(dir, { withFileTypes: true })`: each directory lists its entries
    in the order `readdir` returns them, and an entry is a regular file, a
    directory, or something else (a link, a socket) that the walks ignore.
    Paths are joined with `/`; the scripts only join entry names, which
    contain no `/`, onto directories they already hold. */
module FsTree {
  datatype Entry =
    | File(name: string)
    | Directory(name: string, entries: seq<Entry>)
    | Other(name: string)

  /** `path.join(dir, name)` for a name without separators. */
  function Join(dir: string, name: string): string {
    dir + "/" + name
  }

  /** The index of the last `c` in `s`, or -1. */
  function LastIndexOf(s: string, c: char): (r: int)
    ensures -1 <= r < |s|
    ensures r >= 0 ==> s[r] == c && c !in s[r + 1..]
    ensures r == -1 ==> c !in s
  {
    if s == [] then -1
    else if s[|s| - 1] == c then |s| - 1
    else
      var r := LastIndexOf(s[..|s| - 1], c);
      assert r >= 0 ==> s[r + 1..] == s[..|s| - 1][r + 1..] + [s[|s| - 1]];
      r
  }

  /** `path.dirname`: everything before the last `/`, or "." without one. */
  function DirName(p: string): string {
    var k := LastIndexOf(p, '/');
    if k < 0 then "." else p[..k]
  }

  /** `path.basename`: everything after the last `/`. */
  function FileName(p: string): string {
    p[LastIndexOf(p, '/') + 1..]
  }

  /** Splitting a joined path gives back its directory and its name. */
  lemma JoinSplits(dir: string, name: string)
    requires '/' !in name
    ensures DirName(Join(dir, name)) == dir && FileName(Join(dir, name)) == name
  {
    var p := Join(dir, name);
    var k := LastIndexOf(p, '/');
    assert p[|dir|] == '/';
    assert p[|dir| + 1..] == name;
  }

  /** Every entry name in the tree is free of `/`. */
  predicate SlashFree(entries: seq<Entry>)
    decreases entries
  {
    forall k :: 0 <= k < |entries| ==> EntrySlashFree(entries[k])
  }

  predicate EntrySlashFree(e: Entry)
    decreases e
  {
    '/' !in e.name && (e.Directory? ==> SlashFree(e.entries))
  }

  /** The files a depth-first walk of `entries` under `dir` collects, in
      visiting order: a file's full path when `select(name, path)` holds,
      and the files of each directory at the place the directory is listed. */
  function Walk(dir: string, entries: seq<Entry>, select: (string, string) -> bool): seq<string>
    decreases entries
  {
    if entries == [] then [] else WalkEntry(dir, entries[0], select) + Walk(dir, entries[1..], select)
  }

  function WalkEntry(dir: string, e: Entry, select: (string, string) -> bool): seq<string>
    decreases e
  {
    match e
    case File(name) => if select(name, Join(dir, name)) then [Join(dir, name)] else []
    case Directory(name, children) => Walk(Join(dir, name), children, select)
    case Other(_) => []
  }

  lemma {:induction false} WalkAppend(dir: string, a: seq<Entry>, b: seq<Entry>, select: (string, string) -> bool)
    decreases a
    ensures Walk(dir, a + b, select) == Walk(dir, a, select) + Walk(dir, b, select)
  {
    if a != [] {
      assert (a + b)[0] == a[0] && (a + b)[1..] == a[1..] + b;
      WalkAppend(dir, a[1..], b, select);
    } else {
      assert a + b == b;
    }
  }

  /** Every collected path is a selected file: `select` holds of its own
      name and path. */
  lemma {:induction false} WalkSelects(dir: string, entries: seq<Entry>, select: (string, string) -> bool)
    requires SlashFree(entries)
    decreases entries
    ensures forall k :: 0 <= k < |Walk(dir, entries, select)| ==>
              select(FileName(Walk(dir, entries, select)[k]), Walk(dir, entries, select)[k])
  {
    if entries != [] {
      WalkEntrySelects(dir, entries[0], select);
      WalkSelects(dir, entries[1..], select);
    }
  }

  lemma {:induction false} WalkEntrySelects(dir: string, e: Entry, select: (string, string) -> bool)
    requires EntrySlashFree(e)
    decreases e
    ensures forall k :: 0 <= k < |WalkEntry(dir, e, select)| ==>
              select(FileName(WalkEntry(dir, e, select)[k]), WalkEntry(dir, e, select)[k])
  {
    match e
    case File(name) =>
      JoinSplits(dir, name);
    case Directory(name, children) =>
      WalkSelects(Join(dir, name), children, select);
    case Other(_) =>
  }

  /** A recursive `scan`/`traverse` that pushes every selected file onto
      the list it closes over. */
  class Scanner {
    var found: seq<string>
    const select: (string, string) -> bool

    constructor (select: (string, string) -> bool)
      ensures found == [] && this.select == select
    {
      found := [];
      this.select := select;
    }

    method Scan(dir: string, entries: seq<Entry>)
      modifies this`found
      decreases entries
      ensures found == old(found) + Walk(dir, entries, select)
    {
      var k := 0;
      while k < |entries|
        invariant 0 <= k <= |entries|
        invariant found == old(found) + Walk(dir, entries[..k], select)
      {
        var e := entries[k];
        WalkAppend(dir, entries[..k], [e], select);
        assert entries[..k + 1] == entries[..k] + [e];
        assert Walk(dir, [e], select) == WalkEntry(dir, e, select) by {
          assert [e][1..] == [];
        }
        match e {
          case File(name) =>
            if select(name, Join(dir, name)) {
              found := found + [Join(dir, name)];
            }
          case Directory(name, children) =>
            Scan(Join(dir, name), children);
          case Other(_) =>
        }
        k := k + 1;
      }
      assert entries[..|entries|] == entries;
    }
  }
}
