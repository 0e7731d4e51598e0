/** Copying site-packages into the portable runtime: a work list of directories, with caches,
    compiled files and install records left out and links refused. */
module SitePackages {
  import opened Sequences

  /** What a directory scan finds, in whatever order it finds it. */
  datatype Entry = File(content: nat) | Folder(entries: Entries) | Link | Special
  datatype Entries = End | Next(name: string, entry: Entry, rest: Entries)

  datatype Made = Directory(path: Path) | Copy(path: Path, content: nat)

  // ---- Names ----

  function LowerChar(c: char): char { if 'A' <= c <= 'Z' then c - 'A' + 'a' else c }

  function Lower(name: string): string { seq(|name|, i requires 0 <= i < |name| => LowerChar(name[i])) }

  predicate EndsWith(name: string, suffix: string) { |suffix| <= |name| && name[|name| - |suffix|..] == suffix }

  predicate SkipsFolder(name: string) { Lower(name) == "__pycache__" }

  predicate SkipsFile(name: string) {
    || Lower(name) == "direct_url.json"
    || EndsWith(Lower(name), ".pyc") || EndsWith(Lower(name), ".pyo") || EndsWith(Lower(name), ".egg-link")
  }

  // ---- What the copy should be, by recursion over the tree ----

  function Kept(es: Entries, at: Path): set<Made>
    decreases es
  {
    match es
    case End => {}
    case Next(name, entry, rest) => KeptEntry(name, entry, at) + Kept(rest, at)
  }

  function KeptEntry(name: string, entry: Entry, at: Path): set<Made>
    decreases entry
  {
    match entry
    case File(content) => if SkipsFile(name) then {} else {Copy(at + [name], content)}
    case Folder(es) => if SkipsFolder(name) then {} else {Directory(at + [name])} + Kept(es, at + [name])
    case _ => {}
  }

  /** Nothing to refuse: no link and no special file, skipped folders apart. */
  predicate Clean(es: Entries)
    decreases es
  {
    match es
    case End => true
    case Next(name, entry, rest) => CleanEntry(name, entry) && Clean(rest)
  }

  predicate CleanEntry(name: string, entry: Entry)
    decreases entry
  {
    match entry
    case File(_) => true
    case Folder(es) => SkipsFolder(name) || Clean(es)
    case _ => false
  }

  function Size(es: Entries): nat {
    match es
    case End => 0
    case Next(_, entry, rest) => 1 + (if entry.Folder? then 1 + Size(entry.entries) else 0) + Size(rest)
  }

  // ---- The same over the work list ----

  type Pending = seq<(Entries, Path)>

  function KeptAll(pending: Pending): set<Made> {
    if pending == [] then {}
    else KeptAll(pending[..|pending| - 1]) + Kept(pending[|pending| - 1].0, pending[|pending| - 1].1)
  }

  predicate CleanAll(pending: Pending) { forall i :: 0 <= i < |pending| ==> Clean(pending[i].0) }

  function SizeAll(pending: Pending): nat {
    if pending == [] then 0 else SizeAll(pending[..|pending| - 1]) + 1 + Size(pending[|pending| - 1].0)
  }

  lemma Pushed(pending: Pending, es: Entries, at: Path)
    ensures KeptAll(pending + [(es, at)]) == KeptAll(pending) + Kept(es, at)
    ensures CleanAll(pending + [(es, at)]) <==> CleanAll(pending) && Clean(es)
    ensures SizeAll(pending + [(es, at)]) == SizeAll(pending) + 1 + Size(es)
  {
    var more := pending + [(es, at)];
    assert more[..|more| - 1] == pending;
    if CleanAll(more) {
      assert forall i :: 0 <= i < |pending| ==> more[i] == pending[i];
      assert more[|pending|].0 == es;
    }
  }

  /** One directory of the work list: its files are copied, its folders made and put on the list. */
  method ScanDirectory(es: Entries, at: Path, pending: Pending, made: set<Made>)
      returns (ok: bool, more: Pending, all: set<Made>)
    ensures ok ==> all + KeptAll(more) == made + Kept(es, at) + KeptAll(pending)
    ensures ok ==> (CleanAll(more) <==> Clean(es) && CleanAll(pending))
    ensures ok ==> SizeAll(more) <= SizeAll(pending) + Size(es)
    ensures !ok ==> !Clean(es)
  {
    ok, more, all := true, pending, made;
    var left := es;
    while left.Next?
      invariant all + Kept(left, at) + KeptAll(more) == made + Kept(es, at) + KeptAll(pending)
      invariant Clean(left) && CleanAll(more) <==> Clean(es) && CleanAll(pending)
      invariant SizeAll(more) + Size(left) <= SizeAll(pending) + Size(es)
      invariant !Clean(left) ==> !Clean(es)
      decreases left
    {
      if left.entry.Link? || left.entry.Special? {
        assert !CleanEntry(left.name, left.entry);
        return false, more, all;
      }
      match left.entry {
        case Folder(inner) =>
          if !SkipsFolder(left.name) {
            Pushed(more, inner, at + [left.name]);
            all := all + {Directory(at + [left.name])};
            more := more + [(inner, at + [left.name])];
          }
        case File(content) =>
          if !SkipsFile(left.name) { all := all + {Copy(at + [left.name], content)}; }
      }
      left := left.rest;
    }
  }

  /** `_copy_site_packages`: refused exactly for a source that is no folder or holds a link or a
      special file outside skipped folders; else the target holds exactly the recursive copy. */
  method CopySitePackages(source: Entry) returns (ok: bool, target: set<Made>)
    ensures ok <==> source.Folder? && Clean(source.entries)
    ensures ok ==> target == {Directory([])} + Kept(source.entries, [])
  {
    target := {};
    if !source.Folder? { return false, target; }
    target := {Directory([])};
    var pending: Pending := [(source.entries, [])];
    assert pending == [] + [(source.entries, [])];
    Pushed([], source.entries, []);
    while pending != []
      invariant target + KeptAll(pending) == {Directory([])} + Kept(source.entries, [])
      invariant CleanAll(pending) <==> Clean(source.entries)
      decreases SizeAll(pending)
    {
      var (es, at) := pending[|pending| - 1];
      var others := pending[..|pending| - 1];
      assert pending == others + [(es, at)];
      Pushed(others, es, at);
      ok, pending, target := ScanDirectory(es, at, others, target);
      if !ok { return false, target; }
    }
    return true, target;
  }

  // ---- What the copy contains ----

  /** The names along the way from a tree down to one of its entries. */
  predicate Leads(es: Entries, way: Path, entry: Entry) {
    match es
    case End => false
    case Next(name, e, rest) =>
      || (way == [name] && e == entry)
      || (|way| > 1 && way[0] == name && e.Folder? && Leads(e.entries, way[1..], entry))
      || Leads(rest, way, entry)
  }

  /** No folder on the way is skipped. */
  predicate Open(way: Path) { forall i :: 0 <= i < |way| ==> !SkipsFolder(way[i]) }

  /** Everything copied from a directory lies below its target. */
  lemma {:induction false} KeptBelow(es: Entries, at: Path, m: Made)
    requires m in Kept(es, at)
    ensures at < m.path
    decreases es
  {
    if m in Kept(es.rest, at) {
      KeptBelow(es.rest, at, m);
    } else if es.entry.Folder? && m != Directory(at + [es.name]) {
      KeptBelow(es.entry.entries, at + [es.name], m);
    }
  }

  /** A file is copied exactly when a way of unskipped folders leads to it and its own name is
      not left out; nothing is renamed or changed. */
  lemma {:induction false} CopiedExactly(es: Entries, at: Path, way: Path, content: nat)
    requires way != []
    ensures Copy(at + way, content) in Kept(es, at) <==>
            Leads(es, way, File(content)) && Open(way[..|way| - 1]) && !SkipsFile(way[|way| - 1])
    decreases es, 0
  {
    if es.Next? {
      CopiedExactly(es.rest, at, way, content);
      match es.entry
      case File(c) => OneFile(at, es.name, way);
      case Folder(inner) => CopiedBelow(es.name, inner, at, way, content);
      case _ =>
    }
  }

  lemma OneFile(at: Path, name: string, way: Path)
    requires way != []
    ensures at + [name] == at + way <==> way == [name]
    ensures way == [name] ==> way[..|way| - 1] == []
  {
    if at + [name] == at + way {
      assert way == (at + way)[|at|..] == (at + [name])[|at|..] == [name];
    }
  }

  /** The same inside one folder. */
  lemma {:induction false} CopiedBelow(name: string, inner: Entries, at: Path, way: Path, content: nat)
    requires way != []
    ensures Copy(at + way, content) in KeptEntry(name, Folder(inner), at) <==>
            |way| > 1 && way[0] == name && Leads(inner, way[1..], File(content))
            && Open(way[..|way| - 1]) && !SkipsFile(way[|way| - 1])
    decreases inner, 1
  {
    if |way| > 1 && way[0] == name {
      assert way == [name] + way[1..];
      assert at + way == (at + [name]) + way[1..];
      CopiedExactly(inner, at + [name], way[1..], content);
      OpenBelow(way);
    } else if Copy(at + way, content) in Kept(inner, at + [name]) {
      KeptBelow(inner, at + [name], Copy(at + way, content));
      NotBelow(at, name, way);
    }
  }

  lemma OpenBelow(way: Path)
    requires |way| > 1
    ensures Open(way[..|way| - 1]) <==> !SkipsFolder(way[0]) && Open(way[1..][..|way| - 2])
  {
    var init := way[..|way| - 1];
    assert way[1..][..|way| - 2] == init[1..];
    assert init == [way[0]] + init[1..];
  }

  lemma NotBelow(at: Path, name: string, way: Path)
    requires at + [name] < at + way
    ensures |way| > 1 && way[0] == name
  {
    assert (at + way)[|at|] == (at + [name])[|at|];
  }
}
