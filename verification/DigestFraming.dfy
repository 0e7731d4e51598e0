/** What the release digests are fed: for each file its path, a NUL, a field, a NUL.  The tree
    digest's field is the file's own hash; the worker-source digest's field is the raw content. */
module DigestFraming {
  import opened Sequences

  datatype Entry = Entry(path: Bytes, field: Bytes)

  predicate NulFree(b: Bytes) { 0 !in b }

  function Framed(e: Entry): Bytes { e.path + [0] + e.field + [0] }

  /** `_tree_sha256` and `_browser_worker_source_sha256`: everything passed to `update`. */
  function Stream(entries: seq<Entry>): Bytes {
    if entries == [] then [] else Framed(entries[0]) + Stream(entries[1..])
  }

  /** The loop that feeds the digest. */
  method Feed(entries: seq<Entry>) returns (fed: Bytes)
    ensures fed == Stream(entries)
  {
    fed := [];
    assert entries[..0] == [];
    for i := 0 to |entries|
      invariant fed == Stream(entries[..i])
    {
      StreamAppend(entries[..i], entries[i]);
      assert entries[..i + 1] == entries[..i] + [entries[i]];
      fed := fed + entries[i].path;
      fed := fed + [0];
      fed := fed + entries[i].field;
      fed := fed + [0];
    }
    assert entries[..|entries|] == entries;
  }

  lemma {:induction false} StreamAppend(entries: seq<Entry>, e: Entry)
    ensures Stream(entries + [e]) == Stream(entries) + e.path + [0] + e.field + [0]
  {
    if entries == [] {
      assert entries + [e] == [e] && [e][1..] == [];
    } else {
      StreamAppend(entries[1..], e);
      assert (entries + [e])[1..] == entries[1..] + [e];
    }
  }

  // ---- A reader of the stream ----

  function UpToNul(s: Bytes): (r: Bytes)
    ensures |r| <= |s| && r == s[..|r|] && NulFree(r)
    ensures |r| < |s| ==> s[|r|] == 0
  {
    if s == [] || s[0] == 0 then [] else [s[0]] + UpToNul(s[1..])
  }

  /** One path and one field off the front of the stream. */
  function TakeEntry(s: Bytes): Option<(Entry, Bytes)> {
    var path := UpToNul(s);
    if |path| == |s| then None
    else
      var rest := s[|path| + 1..];
      var field := UpToNul(rest);
      if |field| == |rest| then None else Some((Entry(path, field), rest[|field| + 1..]))
  }

  function Parse(s: Bytes): Option<seq<Entry>>
    decreases |s|
  {
    if s == [] then Some([])
    else
      match TakeEntry(s)
      case None => None
      case Some((e, rest)) =>
        if |rest| >= |s| then None
        else
          match Parse(rest)
          case None => None
          case Some(more) => Some([e] + more)
  }

  lemma {:induction false} UpToNulStops(a: Bytes, b: Bytes)
    requires NulFree(a)
    ensures UpToNul(a + [0] + b) == a
  {
    if a != [] {
      assert a[0] in a && forall x <- a[1..] :: x in a;
      UpToNulStops(a[1..], b);
      assert (a + [0] + b)[1..] == a[1..] + [0] + b;
    }
  }

  lemma TakeFramed(e: Entry, rest: Bytes)
    requires NulFree(e.path) && NulFree(e.field)
    ensures TakeEntry(Framed(e) + rest) == Some((e, rest))
  {
    var s, tail := Framed(e) + rest, e.field + [0] + rest;
    assert s == e.path + [0] + tail;
    UpToNulStops(e.path, tail);
    assert s[|e.path| + 1..] == tail;
    UpToNulStops(e.field, rest);
    assert tail[|e.field| + 1..] == rest;
  }

  lemma ParseStep(e: Entry, rest: Bytes, more: seq<Entry>)
    requires NulFree(e.path) && NulFree(e.field) && Parse(rest) == Some(more)
    ensures Parse(Framed(e) + rest) == Some([e] + more)
  {
    TakeFramed(e, rest);
    assert |rest| < |Framed(e) + rest|;
  }

  /** The exact list of paths and fields is recovered from the stream, in order. */
  lemma {:induction false} StreamIsDecodable(entries: seq<Entry>)
    requires forall e <- entries :: NulFree(e.path) && NulFree(e.field)
    ensures Parse(Stream(entries)) == Some(entries)
  {
    if entries != [] {
      assert entries[0] in entries && forall e <- entries[1..] :: e in entries;
      StreamIsDecodable(entries[1..]);
      ParseStep(entries[0], Stream(entries[1..]), entries[1..]);
      assert entries == [entries[0]] + entries[1..];
    }
  }

  // ---- The tree digest ----

  datatype File = File(path: Bytes, content: Bytes)

  predicate IsHexHash(h: Bytes) {
    |h| == 64 && forall i :: 0 <= i < 64 ==> 48 <= h[i] <= 57 || 97 <= h[i] <= 102
  }

  function TreeEntries(files: seq<File>, hash: Bytes -> Bytes): seq<Entry> {
    seq(|files|, i requires 0 <= i < |files| => Entry(files[i].path, hash(files[i].content)))
  }

  /** The hash does what SHA-256 is trusted for on these files: it prints as 64 hexadecimal
      digits and tells different contents apart. */
  ghost predicate HashTells(files: seq<File>, hash: Bytes -> Bytes) {
    && (forall f <- files :: IsHexHash(hash(f.content)))
    && (forall f <- files, g <- files :: hash(f.content) == hash(g.content) ==> f.content == g.content)
  }

  lemma TreeEntriesNulFree(files: seq<File>, some: seq<File>, hash: Bytes -> Bytes)
    requires HashTells(files, hash)
    requires forall f <- some :: f in files && NulFree(f.path)
    ensures forall e <- TreeEntries(some, hash) :: NulFree(e.path) && NulFree(e.field)
  {
    var es := TreeEntries(some, hash);
    forall e | e in es ensures NulFree(e.path) && NulFree(e.field) {
      var i :| 0 <= i < |es| && es[i] == e;
      assert some[i] in files && IsHexHash(hash(some[i].content));
    }
  }

  /** Equal streams of the tree digest mean equal trees: same paths, same contents, same
      order. */
  lemma EqualTreeStreamsMeanEqualTrees(a: seq<File>, b: seq<File>, hash: Bytes -> Bytes)
    requires HashTells(a + b, hash)
    requires forall f <- a + b :: NulFree(f.path)
    requires Stream(TreeEntries(a, hash)) == Stream(TreeEntries(b, hash))
    ensures a == b
  {
    var ea, eb := TreeEntries(a, hash), TreeEntries(b, hash);
    assert (forall f <- a :: f in a + b) && (forall f <- b :: f in a + b);
    TreeEntriesNulFree(a + b, a, hash);
    TreeEntriesNulFree(a + b, b, hash);
    StreamIsDecodable(ea);
    StreamIsDecodable(eb);
    assert |a| == |ea| == |eb| == |b|;
    forall i | 0 <= i < |a| ensures a[i] == b[i] {
      assert ea[i] == Entry(a[i].path, hash(a[i].content));
      assert eb[i] == Entry(b[i].path, hash(b[i].content));
      assert a[i] in a + b && b[i] in a + b;
    }
  }

  // ---- The worker-source digest ----

  function SourceEntries(files: seq<File>): seq<Entry> {
    seq(|files|, i requires 0 <= i < |files| => Entry(files[i].path, files[i].content))
  }

  ghost predicate AllNulFree(files: seq<File>) {
    forall f <- files :: NulFree(f.path) && NulFree(f.content)
  }

  lemma SourceEntriesNulFree(files: seq<File>)
    ensures AllNulFree(files) <==> forall e <- SourceEntries(files) :: NulFree(e.path) && NulFree(e.field)
  {
    var es := SourceEntries(files);
    if AllNulFree(files) {
      forall e | e in es ensures NulFree(e.path) && NulFree(e.field) {
        var i :| 0 <= i < |es| && es[i] == e;
        assert files[i] in files;
      }
    }
    if forall e <- es :: NulFree(e.path) && NulFree(e.field) {
      forall f | f in files ensures NulFree(f.path) && NulFree(f.content) {
        var i :| 0 <= i < |files| && files[i] == f;
        assert es[i] in es;
      }
    }
  }

  /** Two NUL-free source trees with the same stream are the same. */
  lemma EqualSourceStreamsMeanEqualSources(a: seq<File>, b: seq<File>)
    requires AllNulFree(a) && AllNulFree(b)
    requires Stream(SourceEntries(a)) == Stream(SourceEntries(b))
    ensures a == b
  {
    SourceEntriesNulFree(a);
    SourceEntriesNulFree(b);
    StreamIsDecodable(SourceEntries(a));
    StreamIsDecodable(SourceEntries(b));
    assert |a| == |SourceEntries(a)| == |b|;
    forall i | 0 <= i < |a| ensures a[i] == b[i] {
      assert SourceEntries(a)[i] == SourceEntries(b)[i];
    }
  }

  /** Two adjacent files folded into one whose content carries both NULs. */
  function Folded(f: File, g: File): File {
    File(f.path, f.content + [0] + g.path + [0] + g.content)
  }

  /** Without the NUL condition the source framing is ambiguous, for every pair of adjacent
      files: the folded tree has one file fewer and the very same stream. */
  lemma FoldedSourcesCollide(before: seq<File>, f: File, g: File, after: seq<File>)
    ensures Stream(SourceEntries(before + [f, g] + after)) == Stream(SourceEntries(before + [Folded(f, g)] + after))
  {
    var pair, tail := [Entry(f.path, f.content), Entry(g.path, g.content)], SourceEntries(after);
    var single := [Entry(f.path, Folded(f, g).content)];
    assert SourceEntries(before + [f, g] + after) == SourceEntries(before) + (pair + tail);
    assert SourceEntries(before + [Folded(f, g)] + after) == SourceEntries(before) + (single + tail);
    PairFolds(f, g);
    StreamParts(pair, tail);
    StreamParts(single, tail);
    StreamParts(SourceEntries(before), pair + tail);
    StreamParts(SourceEntries(before), single + tail);
  }

  lemma PairFolds(f: File, g: File)
    ensures Stream([Entry(f.path, f.content), Entry(g.path, g.content)]) == Stream([Entry(f.path, Folded(f, g).content)])
  {
    var first, second, folded := Entry(f.path, f.content), Entry(g.path, g.content), Entry(f.path, Folded(f, g).content);
    assert [first, second][1..] == [second] && [second][1..] == [] && [folded][1..] == [];
    assert Framed(first) + Framed(second) == Framed(folded);
    assert Stream([second]) == Framed(second) + [] == Framed(second);
    assert Stream([folded]) == Framed(folded) + [] == Framed(folded);
  }

  lemma {:induction false} StreamParts(a: seq<Entry>, b: seq<Entry>)
    ensures Stream(a + b) == Stream(a) + Stream(b)
  {
    if a == [] {
      assert a + b == b;
    } else {
      StreamParts(a[1..], b);
      assert (a + b)[1..] == a[1..] + b && (a + b)[0] == a[0];
      Associative(Framed(a[0]), Stream(a[1..]), Stream(b));
    }
  }

  lemma Associative(x: Bytes, y: Bytes, z: Bytes)
    ensures x + (y + z) == x + y + z
  {
  }

  ghost predicate EntriesNulFree(es: seq<Entry>) { forall e <- es :: NulFree(e.path) && NulFree(e.field) }

  lemma NulCount(e: Entry)
    ensures multiset(Framed(e))[0] == 2 + multiset(e.path)[0] + multiset(e.field)[0]
    ensures NulFree(e.path) && NulFree(e.field) <==> multiset(Framed(e))[0] == 2
  {
    assert multiset(Framed(e)) == multiset(e.path) + multiset([0]) + multiset(e.field) + multiset([0]);
  }

  lemma FirstEntryNuls(es: seq<Entry>)
    requires es != []
    ensures multiset(Stream(es))[0] == multiset(Framed(es[0]))[0] + multiset(Stream(es[1..]))[0]
  {
    assert Stream(es) == Framed(es[0]) + Stream(es[1..]);
  }

  lemma NulFreeSplit(es: seq<Entry>)
    requires es != []
    ensures EntriesNulFree(es) <==> NulFree(es[0].path) && NulFree(es[0].field) && EntriesNulFree(es[1..])
  {
    assert forall e :: e in es <==> e == es[0] || e in es[1..];
  }

  /** Every entry brings two NULs of its own, and a stream has no more exactly if the entries
      have none. */
  lemma {:induction false} StreamNuls(es: seq<Entry>)
    ensures multiset(Stream(es))[0] >= 2 * |es|
    ensures multiset(Stream(es))[0] == 2 * |es| <==> EntriesNulFree(es)
  {
    if es != [] {
      StreamNuls(es[1..]);
      NulCount(es[0]);
      FirstEntryNuls(es);
      NulFreeSplit(es);
    }
  }

  lemma LoneSourceIsUnique(files: seq<File>, other: seq<File>)
    requires AllNulFree(files) && |files| <= 1 && Stream(SourceEntries(other)) == Stream(SourceEntries(files))
    ensures other == files
  {
    SourceEntriesNulFree(files);
    SourceEntriesNulFree(other);
    StreamNuls(SourceEntries(files));
    StreamNuls(SourceEntries(other));
    assert |other| == |files|;
    EqualSourceStreamsMeanEqualSources(other, files);
  }

  lemma TwoSourcesCollide(files: seq<File>)
    requires |files| >= 2
    ensures exists other :: other != files && Stream(SourceEntries(other)) == Stream(SourceEntries(files))
  {
    FoldedSourcesCollide([], files[0], files[1], files[2..]);
    assert [] + [files[0], files[1]] + files[2..] == files;
    var other := [] + [Folded(files[0], files[1])] + files[2..];
    assert |other| == |files| - 1;
  }

  /** So a NUL-free source tree shares its stream with no other NUL-free tree, and is the only
      tree at all with that stream exactly if it has at most one file. */
  lemma UniqueExactlyAmongNulFree(files: seq<File>)
    requires AllNulFree(files)
    ensures forall other :: AllNulFree(other) && Stream(SourceEntries(other)) == Stream(SourceEntries(files)) ==> other == files
    ensures (forall other :: Stream(SourceEntries(other)) == Stream(SourceEntries(files)) ==> other == files) <==> |files| <= 1
  {
    forall other | AllNulFree(other) && Stream(SourceEntries(other)) == Stream(SourceEntries(files)) ensures other == files {
      EqualSourceStreamsMeanEqualSources(other, files);
    }
    if |files| <= 1 {
      forall other | Stream(SourceEntries(other)) == Stream(SourceEntries(files)) ensures other == files {
        LoneSourceIsUnique(files, other);
      }
    } else {
      TwoSourcesCollide(files);
    }
  }
}
