/**
  The byte stream behind the managed plugin's digest
  (runtime/hermes/enterprise_bridge/runtime_policy.py:533-557).
 */
module PluginTree {
  import opened Wrappers
  import opened Texts
  import Ordering
  import Utf8

  type Bytes = Utf8.Bytes
  type Name = Utf8.Points

  const SLASH := 47
  const DOT := 46

  /** What the walk finds at a path. */
  datatype Node = Link | Other | File(content: Bytes)

  /** Everything below the root, by POSIX path relative to it. */
  type Tree = map<Name, Node>

  datatype Refusal = HasSymlink | EmptyTree

  // ---- Which paths count ----------------------------------------------------

  /** The parts of a POSIX path. */
  function Parts(path: Name): (parts: seq<Name>)
    ensures parts != []
  {
    if path == [] then [[]]
    else if path[0] == SLASH then [[]] + Parts(path[1..])
    else
      var rest := Parts(path[1..]);
      [[path[0]] + rest[0]] + rest[1..]
  }

  predicate EndsWith(s: Name, tail: Name) {
    |tail| <= |s| && s[|s| - |tail|..] == tail
  }

  /** pathlib's suffix: a last dot neither leading nor trailing the file name. */
  predicate HasSuffix(path: Name, suffix: Name) {
    var parts := Parts(path);
    var file := parts[|parts| - 1];
    EndsWith(file, suffix) && |suffix| < |file|
  }

  /** Compiled Python is not part of the tree. */
  predicate Skipped(path: Name) {
    Codes("__pycache__") in Parts(path) || HasSuffix(path, Codes(".pyc")) || HasSuffix(path, Codes(".pyo"))
  }

  predicate Hashed(tree: Tree, path: Name) {
    path in tree && !Skipped(path) && tree[path].File?
  }

  /** The files whose bytes the digest is to fix. */
  function Files(tree: Tree): map<Name, Bytes> {
    map path | path in tree && !Skipped(path) && tree[path].File? :: tree[path].content
  }

  // ---- Framing --------------------------------------------------------------

  function Pow256(n: nat): (p: nat)
    ensures p >= 1
  {
    if n == 0 then 1 else 256 * Pow256(n - 1)
  }

  function BigEndian(v: nat, width: nat): (bs: Bytes)
    ensures |bs| == width
  {
    if width == 0 then [] else BigEndian(v / 256, width - 1) + [v % 256]
  }

  function FromBigEndian(bs: Bytes): int {
    if bs == [] then 0 else 256 * FromBigEndian(bs[..|bs| - 1]) + bs[|bs| - 1]
  }

  function Frame(name: Bytes, content: Bytes): Bytes {
    BigEndian(|name|, 4) + name + BigEndian(|content|, 8) + content
  }

  function Stream(files: map<Name, Bytes>, paths: seq<Name>): Bytes
    requires forall i :: 0 <= i < |paths| ==> paths[i] in files
  {
    if paths == [] then [] else Frame(Utf8.Encode(paths[0]), files[paths[0]]) + Stream(files, paths[1..])
  }

  lemma {:induction false} StreamAppend(files: map<Name, Bytes>, paths: seq<Name>, path: Name)
    requires path in files && forall i :: 0 <= i < |paths| ==> paths[i] in files
    ensures Stream(files, paths + [path]) == Stream(files, paths) + Frame(Utf8.Encode(path), files[path])
    decreases |paths|
  {
    if paths == [] {
      assert [path][1..] == [] && [] + [path] == [path];
    } else {
      assert (paths + [path])[1..] == paths[1..] + [path];
      StreamAppend(files, paths[1..], path);
    }
  }

  // ---- A reader of the stream -------------------------------------------------

  datatype Entry = Entry(name: Bytes, content: Bytes)

  /** Four bytes as a number, the most significant first. */
  function FourBytes(bs: Bytes): int
    requires |bs| >= 4
  {
    16_777_216 * bs[0] + 65_536 * bs[1] + 256 * bs[2] + bs[3]
  }

  function EightBytes(bs: Bytes): int
    requires |bs| >= 8
  {
    4_294_967_296 * FourBytes(bs[..4]) + FourBytes(bs[4..])
  }

  /**
    A length in four bytes, that many bytes of name, a length in eight bytes, that
    many bytes of content, and so on to the end; nothing if the bytes run short.
   */
  function ReadEntries(bs: Bytes): Option<seq<Entry>>
    decreases |bs|
  {
    if bs == [] then Some([])
    else if |bs| < 4 || FourBytes(bs) < 0 || |bs| < 4 + FourBytes(bs) then None
    else
      var n := FourBytes(bs);
      var tail := bs[4 + n..];
      if |tail| < 8 || EightBytes(tail) < 0 || |tail| < 8 + EightBytes(tail) then None
      else
        var c := EightBytes(tail);
        var more := ReadEntries(tail[8 + c..]);
        if more.None? then None else Some([Entry(bs[4..4 + n], tail[8..8 + c])] + more.value)
  }

  /** The paths' encoded names with their contents, in order. */
  function Entries(files: map<Name, Bytes>, paths: seq<Name>): (entries: seq<Entry>)
    requires forall i :: 0 <= i < |paths| ==> paths[i] in files
    ensures |entries| == |paths|
    ensures forall i :: 0 <= i < |paths| ==> entries[i] == Entry(Utf8.Encode(paths[i]), files[paths[i]])
  {
    seq(|paths|, i requires 0 <= i < |paths| => Entry(Utf8.Encode(paths[i]), files[paths[i]]))
  }

  lemma FieldSizes()
    ensures Pow256(4) == 4_294_967_296 && Pow256(8) == 18_446_744_073_709_551_616
  {
    assert Pow256(4) == 4_294_967_296;
    assert Pow256(8) == 256 * (256 * (256 * (256 * Pow256(4))));
  }

  lemma LastByte(bs: Bytes, n: nat)
    requires 0 < n <= |bs|
    ensures FromBigEndian(bs[..n]) == 256 * FromBigEndian(bs[..n - 1]) + bs[n - 1]
  {
    assert bs[..n][..n - 1] == bs[..n - 1];
  }

  lemma FourBytesAre(bs: Bytes)
    requires |bs| >= 4
    ensures FromBigEndian(bs[..4]) == FourBytes(bs)
  {
    LastByte(bs, 1);
    LastByte(bs, 2);
    LastByte(bs, 3);
    LastByte(bs, 4);
  }

  lemma EightBytesAre(bs: Bytes)
    requires |bs| == 8
    ensures FromBigEndian(bs) == EightBytes(bs)
  {
    FourBytesAre(bs);
    assert FourBytes(bs[..4]) == FourBytes(bs);
    LastByte(bs, 5);
    LastByte(bs, 6);
    LastByte(bs, 7);
    LastByte(bs, 8);
    assert bs[..8] == bs;
  }

  lemma LengthReads(v: nat, rest: Bytes)
    ensures v < Pow256(4) ==> FourBytes(BigEndian(v, 4) + rest) == v
    ensures v < Pow256(8) ==> EightBytes(BigEndian(v, 8) + rest) == v
  {
    if v < Pow256(4) {
      var bs := BigEndian(v, 4);
      BigEndianReads(v, 4);
      FourBytesAre(bs);
      assert bs[..4] == bs;
    }
    if v < Pow256(8) {
      var bs := BigEndian(v, 8);
      BigEndianReads(v, 8);
      EightBytesAre(bs);
      assert (bs + rest)[..4] == bs[..4];
      SameFour((bs + rest)[4..], bs[4..]);
    }
  }

  lemma SameFour(a: Bytes, b: Bytes)
    requires |a| >= 4 && |b| >= 4 && a[0] == b[0] && a[1] == b[1] && a[2] == b[2] && a[3] == b[3]
    ensures FourBytes(a) == FourBytes(b)
  {}

  lemma Between(a: Bytes, b: Bytes, c: Bytes)
    ensures (a + (b + c))[|a|..|a| + |b|] == b && (a + (b + c))[|a| + |b|..] == c
  {}

  lemma EntryReads(size: Bytes, name: Bytes, tail: Bytes, length: Bytes, content: Bytes, rest: Bytes)
    requires |size| == 4 && FourBytes(size + (name + tail)) == |name|
    requires tail == length + (content + rest) && |length| == 8 && EightBytes(tail) == |content|
    requires ReadEntries(rest).Some?
    ensures ReadEntries(size + (name + tail)) == Some([Entry(name, content)] + ReadEntries(rest).value)
  {
    hide FourBytes, EightBytes;
    Between(size, name, tail);
    Between(length, content, rest);
    EntryParts(size + (name + tail), name, tail, content, rest);
  }

  lemma EntryParts(bs: Bytes, name: Bytes, tail: Bytes, content: Bytes, rest: Bytes)
    requires |bs| == 4 + |name| + |tail| && FourBytes(bs) == |name|
    requires bs[4..4 + |name|] == name && bs[4 + |name|..] == tail
    requires |tail| == 8 + |content| + |rest| && EightBytes(tail) == |content|
    requires tail[8..8 + |content|] == content && tail[8 + |content|..] == rest
    requires ReadEntries(rest).Some?
    ensures ReadEntries(bs) == Some([Entry(name, content)] + ReadEntries(rest).value)
  {
    hide FourBytes, EightBytes;
  }

  lemma FrameReads(name: Bytes, content: Bytes, rest: Bytes)
    requires |name| < Pow256(4) && |content| < Pow256(8) && ReadEntries(rest).Some?
    ensures ReadEntries(Frame(name, content) + rest) == Some([Entry(name, content)] + ReadEntries(rest).value)
  {
    hide BigEndian, FourBytes, EightBytes, ReadEntries, Pow256;
    var size, length := BigEndian(|name|, 4), BigEndian(|content|, 8);
    var tail := length + (content + rest);
    LengthReads(|name|, name + tail);
    LengthReads(|content|, content + rest);
    EntryReads(size, name, tail, length, content, rest);
    assert Frame(name, content) + rest == size + (name + tail);
  }

  /** Reading the stream gives every name and content back, in order, and leaves no byte over. */
  lemma {:induction false} StreamReads(files: map<Name, Bytes>, paths: seq<Name>)
    requires Framable(files) && InFiles(paths, files)
    ensures ReadEntries(Stream(files, paths)) == Some(Entries(files, paths))
    decreases |paths|
  {
    hide Frame, Utf8.Encode, ReadEntries;
    if paths == [] {
      NothingReads();
    } else {
      StreamReads(files, paths[1..]);
      FrameReads(Utf8.Encode(paths[0]), files[paths[0]], Stream(files, paths[1..]));
      assert Entries(files, paths) == [Entry(Utf8.Encode(paths[0]), files[paths[0]])] + Entries(files, paths[1..]);
    }
  }

  lemma NothingReads()
    ensures ReadEntries([]) == Some([])
  {}

  // ---- The digest loop ------------------------------------------------------

  /** The paths a listing contributes, in its order. */
  function Wanted(tree: Tree, listing: seq<Name>): (paths: seq<Name>)
    ensures forall i :: 0 <= i < |paths| ==> paths[i] in Files(tree)
  {
    if listing == [] then []
    else
      var n := |listing| - 1;
      Wanted(tree, listing[..n]) + if Hashed(tree, listing[n]) then [listing[n]] else []
  }

  lemma {:induction false} WantedIs(tree: Tree, listing: seq<Name>)
    ensures forall path :: path in Wanted(tree, listing) <==> path in listing && path in Files(tree)
    decreases |listing|
  {
    if listing != [] {
      var n := |listing| - 1;
      WantedIs(tree, listing[..n]);
      assert listing == listing[..n] + [listing[n]];
    }
  }

  lemma {:induction false} WantedSorted(tree: Tree, listing: seq<Name>)
    requires Ordering.Sorted(listing)
    ensures Ordering.Sorted(Wanted(tree, listing))
    decreases |listing|
  {
    if listing != [] {
      var n := |listing| - 1;
      WantedSorted(tree, listing[..n]);
      WantedIs(tree, listing[..n]);
      EarlierAreLess(listing, Wanted(tree, listing[..n]));
    }
  }

  lemma EarlierAreLess(listing: seq<Name>, chosen: seq<Name>)
    requires listing != [] && Ordering.Sorted(listing)
    requires forall path :: path in chosen ==> path in listing[..|listing| - 1]
    ensures forall path :: path in chosen ==> Ordering.Less(path, listing[|listing| - 1])
  {
    var n := |listing| - 1;
    forall path | path in chosen ensures Ordering.Less(path, listing[n]) {
      var k :| 0 <= k < n && listing[..n][k] == path;
      assert listing[k] == path;
    }
  }

  /** A listing of the whole tree, in whatever order the walk gave it. */
  ghost predicate Lists(listing: seq<Name>, tree: Tree) {
    Ordering.Distinct(listing) && forall path :: path in listing <==> path in tree
  }

  ghost predicate HasLink(tree: Tree) {
    exists path :: Linked(tree, path)
  }

  predicate Linked(tree: Tree, path: Name) {
    path in tree && !Skipped(path) && tree[path].Link?
  }

  function HashedPaths(tree: Tree, listing: seq<Name>): (paths: seq<Name>)
    ensures forall i :: 0 <= i < |paths| ==> paths[i] in Files(tree)
  {
    Wanted(tree, Ordering.Sort(listing))
  }

  /** The hashed files, each once, in the one order by path. */
  lemma HashedPathsAreSorted(tree: Tree, listing: seq<Name>)
    requires Lists(listing, tree)
    ensures Ordering.Sorted(HashedPaths(tree, listing))
    ensures forall path :: path in HashedPaths(tree, listing) <==> path in Files(tree)
  {
    Ordering.SortSorts(listing);
    WantedSorted(tree, Ordering.Sort(listing));
    WantedIs(tree, Ordering.Sort(listing));
  }

  lemma WantedNext(tree: Tree, paths: seq<Name>, i: nat)
    requires i < |paths|
    ensures Hashed(tree, paths[i]) ==>
      Wanted(tree, paths[..i + 1]) == Wanted(tree, paths[..i]) + [paths[i]]
      && Stream(Files(tree), Wanted(tree, paths[..i + 1]))
        == Stream(Files(tree), Wanted(tree, paths[..i])) + Frame(Utf8.Encode(paths[i]), tree[paths[i]].content)
    ensures !Hashed(tree, paths[i]) ==> Wanted(tree, paths[..i + 1]) == Wanted(tree, paths[..i])
  {
    assert paths[..i + 1][..i] == paths[..i];
    if Hashed(tree, paths[i]) { StreamAppend(Files(tree), Wanted(tree, paths[..i]), paths[i]); }
  }

  predicate LinkAmong(tree: Tree, paths: seq<Name>) {
    paths != [] && (LinkAmong(tree, paths[..|paths| - 1]) || Linked(tree, paths[|paths| - 1]))
  }

  lemma {:induction false} LinkAmongIs(tree: Tree, paths: seq<Name>)
    ensures LinkAmong(tree, paths) <==> exists path :: path in paths && Linked(tree, path)
    decreases |paths|
  {
    if paths != [] {
      var n := |paths| - 1;
      LinkAmongIs(tree, paths[..n]);
      assert paths == paths[..n] + [paths[n]];
    }
  }

  lemma LinkNext(tree: Tree, paths: seq<Name>, i: nat)
    requires i < |paths|
    ensures LinkAmong(tree, paths[..i + 1]) <==> LinkAmong(tree, paths[..i]) || Linked(tree, paths[i])
    ensures Linked(tree, paths[i]) ==> LinkAmong(tree, paths)
  {
    assert paths[..i + 1][..i] == paths[..i];
    LinkAmongIs(tree, paths);
  }

  /** The loop over the sorted paths. */
  method Feed(tree: Tree, paths: seq<Name>) returns (r: Result<Bytes, Refusal>)
    requires forall k :: 0 <= k < |paths| ==> paths[k] in tree
    ensures r == if LinkAmong(tree, paths) then Err(HasSymlink)
                 else if Wanted(tree, paths) == [] then Err(EmptyTree)
                 else Ok(Stream(Files(tree), Wanted(tree, paths)))
  {
    var stream: Bytes, found := [], false;
    for i := 0 to |paths|
      invariant stream == Stream(Files(tree), Wanted(tree, paths[..i]))
      invariant !LinkAmong(tree, paths[..i])
      invariant found <==> Wanted(tree, paths[..i]) != []
    {
      var path := paths[i];
      WantedNext(tree, paths, i);
      LinkNext(tree, paths, i);
      if Skipped(path) { continue; }
      if tree[path].Link? { return Err(HasSymlink); }
      if !tree[path].File? { continue; }
      found := true;
      stream := stream + Frame(Utf8.Encode(path), tree[path].content);
    }
    assert paths[..|paths|] == paths;
    if !found { return Err(EmptyTree); }
    return Ok(stream);
  }

  /** What the digest is fed. */
  method TreeStream(tree: Tree, listing: seq<Name>) returns (r: Result<Bytes, Refusal>)
    requires Lists(listing, tree)
    ensures HasLink(tree) ==> r == Err(HasSymlink)
    ensures !HasLink(tree) && Files(tree) == map[] ==> r == Err(EmptyTree)
    ensures !HasLink(tree) && Files(tree) != map[] ==> r == Ok(Stream(Files(tree), HashedPaths(tree, listing)))
    ensures r.Ok? && Framable(Files(tree)) ==> ReadEntries(r.value) == Some(Entries(Files(tree), HashedPaths(tree, listing)))
    ensures r == Err(HasSymlink) <==> exists path :: path in tree && !Skipped(path) && tree[path].Link?
    ensures r == Err(EmptyTree) <==> forall path :: path in tree && !Skipped(path) ==> !tree[path].File? && !tree[path].Link?
  {
    var paths := Ordering.Sort(listing);
    SortedListing(tree, listing);
    LinkAmongIs(tree, paths);
    WantedIs(tree, paths);
    NoneWanted(tree, paths);
    r := Feed(tree, paths);
    if Framable(Files(tree)) { StreamReads(Files(tree), HashedPaths(tree, listing)); }
  }

  lemma SortedListing(tree: Tree, listing: seq<Name>)
    requires Lists(listing, tree)
    ensures forall path :: path in Ordering.Sort(listing) <==> path in tree
    ensures forall i :: 0 <= i < |Ordering.Sort(listing)| ==> Ordering.Sort(listing)[i] in tree
  {
    Ordering.SortSorts(listing);
    var paths := Ordering.Sort(listing);
    assert forall i :: 0 <= i < |paths| ==> paths[i] in paths;
  }

  lemma NoneWanted(tree: Tree, paths: seq<Name>)
    requires forall path :: path in Wanted(tree, paths) <==> path in Files(tree)
    ensures Wanted(tree, paths) == [] <==> Files(tree) == map[]
  {
    if Wanted(tree, paths) != [] { assert Wanted(tree, paths)[0] in Wanted(tree, paths); }
  }

  // ---- Unique decoding ------------------------------------------------------

  lemma {:induction false} BigEndianReads(v: nat, width: nat)
    requires v < Pow256(width)
    ensures FromBigEndian(BigEndian(v, width)) == v
    decreases width
  {
    if width > 0 {
      BigEndianReads(v / 256, width - 1);
      var bs := BigEndian(v, width);
      assert bs[..width - 1] == BigEndian(v / 256, width - 1);
    }
  }

  lemma LengthsAgree(a: nat, b: nat, width: nat)
    requires a < Pow256(width) && b < Pow256(width) && BigEndian(a, width) == BigEndian(b, width)
    ensures a == b
  {
    BigEndianReads(a, width);
    BigEndianReads(b, width);
  }

  lemma PrefixesAgree(a: Bytes, x: Bytes, b: Bytes, y: Bytes)
    requires a + x == b + y && |a| == |b|
    ensures a == b && x == y
  {
    assert (a + x)[..|a|] == a && (b + y)[..|b|] == b;
    assert (a + x)[|a|..] == x && (b + y)[|b|..] == y;
  }

  /** A field and what it measures come apart from the rest in one way only. */
  lemma FieldsAgree(p: Bytes, a: Bytes, x: Bytes, q: Bytes, b: Bytes, y: Bytes)
    requires |p| == |q| && (p == q ==> |a| == |b|)
    requires p + a + x == q + b + y
    ensures p == q && a == b && x == y
  {
    assert p + a + x == p + (a + x) && q + b + y == q + (b + y);
    PrefixesAgree(p, a + x, q, b + y);
    PrefixesAgree(a, x, b, y);
  }

  lemma FourFieldsAgree(p: Bytes, n: Bytes, r: Bytes, c: Bytes, x: Bytes, q: Bytes, m: Bytes, s: Bytes, d: Bytes, y: Bytes)
    requires |p| == |q| && (p == q ==> |n| == |m|) && |r| == |s| && (r == s ==> |c| == |d|)
    requires p + n + r + c + x == q + m + s + d + y
    ensures n == m && c == d && x == y
  {
    assert p + n + r + c + x == p + n + (r + c + x) && q + m + s + d + y == q + m + (s + d + y);
    FieldsAgree(p, n, r + c + x, q, m, s + d + y);
    FieldsAgree(r, c, x, s, d, y);
  }

  lemma FramesAgree(n: Bytes, c: Bytes, x: Bytes, m: Bytes, d: Bytes, y: Bytes)
    requires |n| < Pow256(4) && |m| < Pow256(4) && |c| < Pow256(8) && |d| < Pow256(8)
    requires Frame(n, c) + x == Frame(m, d) + y
    ensures n == m && c == d && x == y
  {
    if BigEndian(|n|, 4) == BigEndian(|m|, 4) { LengthsAgree(|n|, |m|, 4); }
    if BigEndian(|c|, 8) == BigEndian(|d|, 8) { LengthsAgree(|c|, |d|, 8); }
    FourFieldsAgree(BigEndian(|n|, 4), n, BigEndian(|c|, 8), c, x, BigEndian(|m|, 4), m, BigEndian(|d|, 8), d, y);
  }

  /** Names and contents whose lengths the fields can hold; a lone surrogate in a name does not encode. */
  ghost predicate Framable(files: map<Name, Bytes>) {
    forall path :: path in files ==>
      Utf8.Scalars(path) && |Utf8.Encode(path)| < Pow256(4) && |files[path]| < Pow256(8)
  }

  ghost predicate InFiles(paths: seq<Name>, files: map<Name, Bytes>) {
    forall i :: 0 <= i < |paths| ==> paths[i] in files
  }

  lemma {:induction false} StreamsAgree(f: map<Name, Bytes>, p: seq<Name>, g: map<Name, Bytes>, q: seq<Name>)
    requires Framable(f) && Framable(g) && InFiles(p, f) && InFiles(q, g)
    requires Stream(f, p) == Stream(g, q)
    ensures p == q && forall i :: 0 <= i < |p| ==> f[p[i]] == g[p[i]]
    decreases |p|
  {
    hide Utf8.Encode, Utf8.Decode;
    if p != [] && q != [] {
      FramesAgree(Utf8.Encode(p[0]), f[p[0]], Stream(f, p[1..]), Utf8.Encode(q[0]), g[q[0]], Stream(g, q[1..]));
      Utf8.Utf8RoundTrip(p[0]);
      Utf8.Utf8RoundTrip(q[0]);
      StreamsAgree(f, p[1..], g, q[1..]);
      assert p == [p[0]] + p[1..] && q == [q[0]] + q[1..];
      forall i | 0 <= i < |p| ensures f[p[i]] == g[p[i]] {
        if i > 0 { assert p[i] == p[1..][i - 1]; }
      }
    }
  }

  lemma SameStreamSameFiles(f: map<Name, Bytes>, p: seq<Name>, g: map<Name, Bytes>, q: seq<Name>)
    requires Framable(f) && Framable(g) && InFiles(p, f) && InFiles(q, g)
    requires (forall path :: path in p <==> path in f) && (forall path :: path in q <==> path in g)
    requires Stream(f, p) == Stream(g, q)
    ensures f == g
  {
    StreamsAgree(f, p, g, q);
    forall path ensures path in f <==> path in g {
      assert (path in f <==> path in p) && (path in g <==> path in q);
    }
    forall path | path in f ensures f[path] == g[path] {
      var i :| 0 <= i < |p| && p[i] == path;
    }
  }

  /** Trees share their stream exactly when they share their files: the same paths with the same bytes. */
  lemma StreamFixesFiles(a: Tree, la: seq<Name>, b: Tree, lb: seq<Name>)
    requires Lists(la, a) && Lists(lb, b) && Framable(Files(a)) && Framable(Files(b))
    ensures Stream(Files(a), HashedPaths(a, la)) == Stream(Files(b), HashedPaths(b, lb)) <==> Files(a) == Files(b)
  {
    var f, p, g, q := Files(a), HashedPaths(a, la), Files(b), HashedPaths(b, lb);
    HashedPathsAreSorted(a, la);
    HashedPathsAreSorted(b, lb);
    if Stream(f, p) == Stream(g, q) { SameStreamSameFiles(f, p, g, q); }
    if f == g { Ordering.SortedIsUnique(p, q); }
  }
}
