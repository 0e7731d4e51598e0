/** The provenance scan: a file is read block by block, lower-cased, and searched for every
    needle in UTF-8 and UTF-16LE, carrying an overlap from block to block. */
module NeedleScan {
  import opened Sequences

  /** A Unicode scalar value. */
  type Scalar = x: int | 0 <= x < 0xD800 || 0xE000 <= x < 0x110000
  type Text = seq<Scalar>

  // ---- Encodings ----

  function Utf8Of(c: Scalar): Bytes {
    if c < 0x80 then [c]
    else if c < 0x800 then [0xC0 + c / 0x40, 0x80 + c % 0x40]
    else if c < 0x10000 then [0xE0 + c / 0x1000, 0x80 + c / 0x40 % 0x40, 0x80 + c % 0x40]
    else [0xF0 + c / 0x40000, 0x80 + c / 0x1000 % 0x40, 0x80 + c / 0x40 % 0x40, 0x80 + c % 0x40]
  }

  function Utf16Of(c: Scalar): Bytes {
    if c < 0x10000 then [c % 0x100, c / 0x100]
    else
      var high, low := 0xD800 + (c - 0x10000) / 0x400, 0xDC00 + (c - 0x10000) % 0x400;
      [high % 0x100, high / 0x100, low % 0x100, low / 0x100]
  }

  function Utf8(t: Text): Bytes {
    if t == [] then [] else Utf8Of(t[0]) + Utf8(t[1..])
  }

  function Utf16le(t: Text): Bytes {
    if t == [] then [] else Utf16Of(t[0]) + Utf16le(t[1..])
  }

  function Encoded(texts: seq<Text>, encode: Text -> Bytes): seq<Bytes> {
    seq(|texts|, i requires 0 <= i < |texts| => encode(texts[i]))
  }

  /** Both encodings of every needle. */
  function AllNeedles(texts: seq<Text>): seq<Bytes> {
    Encoded(texts, Utf8) + Encoded(texts, Utf16le)
  }

  // ---- Searching ----

  predicate Upper(b: Byte) { 0x41 <= b <= 0x5A }

  function LowerByte(b: Byte): Byte { if Upper(b) then b + 0x20 else b }

  /** `bytes.lower()`: only the ASCII capitals change. */
  function Lower(s: Bytes): Bytes {
    seq(|s|, i requires 0 <= i < |s| => LowerByte(s[i]))
  }

  predicate OccursAt(needle: Bytes, s: Bytes, i: nat) {
    i + |needle| <= |s| && s[i..i + |needle|] == needle
  }

  predicate Occurs(needle: Bytes, s: Bytes) {
    exists i :: 0 <= i <= |s| && OccursAt(needle, s, i)
  }

  predicate AnyOccurs(needles: seq<Bytes>, s: Bytes) {
    exists k :: 0 <= k < |needles| && Occurs(needles[k], s)
  }

  function Concat(blocks: seq<Bytes>): Bytes {
    if blocks == [] then [] else Concat(blocks[..|blocks| - 1]) + blocks[|blocks| - 1]
  }

  function Longest(needles: seq<Bytes>): nat {
    if needles == [] then 1
    else if |needles| == 1 then |needles[0]|
    else
      var rest := Longest(needles[..|needles| - 1]);
      if |needles[|needles| - 1]| > rest then |needles[|needles| - 1]| else rest
  }

  lemma LongestBounds(needles: seq<Bytes>)
    ensures forall k :: 0 <= k < |needles| ==> |needles[k]| <= Longest(needles)
  {
    if |needles| > 1 {
      LongestBounds(needles[..|needles| - 1]);
    }
  }

  /** The last `n` bytes, or everything when there are fewer. */
  function Tail(s: Bytes, n: nat): Bytes {
    if |s| <= n then s else s[|s| - n..]
  }

  lemma LowerOfParts(a: Bytes, b: Bytes)
    ensures Lower(a + b) == Lower(a) + Lower(b)
    ensures Lower(Lower(a)) == Lower(a)
  {
  }

  lemma OccursMoved(needle: Bytes, s: Bytes, i: nat, t: Bytes, j: nat)
    requires OccursAt(needle, s, i) && j + |needle| <= |t| && t[j..j + |needle|] == s[i..i + |needle|]
    ensures Occurs(needle, t)
  {
    assert OccursAt(needle, t, j);
  }

  /** An occurrence in what was seen, or in the carried part, is one in the whole. */
  lemma OccursInWhole(needle: Bytes, seen: Bytes, next: Bytes, overlap: nat)
    ensures Occurs(needle, seen) || Occurs(needle, Tail(seen, overlap) + next) ==> Occurs(needle, seen + next)
  {
    var content, cut := Tail(seen, overlap) + next, |seen| - |Tail(seen, overlap)|;
    if Occurs(needle, seen) {
      var i :| 0 <= i <= |seen| && OccursAt(needle, seen, i);
      assert (seen + next)[i..i + |needle|] == seen[i..i + |needle|];
      OccursMoved(needle, seen, i, seen + next, i);
    } else if Occurs(needle, content) {
      var i :| 0 <= i <= |content| && OccursAt(needle, content, i);
      assert (seen + next)[cut + i..cut + i + |needle|] == content[i..i + |needle|];
      OccursMoved(needle, content, i, seen + next, cut + i);
    }
  }

  /** An occurrence in the whole that reaches into the new part starts no earlier than the
      carried overlap. */
  lemma OccursInPart(needle: Bytes, seen: Bytes, next: Bytes, overlap: nat)
    requires |needle| <= overlap + 1 && next != [] && Occurs(needle, seen + next)
    ensures (seen != [] && Occurs(needle, seen)) || Occurs(needle, Tail(seen, overlap) + next)
  {
    var content, cut := Tail(seen, overlap) + next, |seen| - |Tail(seen, overlap)|;
    var i :| 0 <= i <= |seen + next| && OccursAt(needle, seen + next, i);
    if i >= cut {
      assert content[i - cut..i - cut + |needle|] == (seen + next)[i..i + |needle|];
      OccursMoved(needle, seen + next, i, content, i - cut);
    } else {
      assert seen[i..i + |needle|] == (seen + next)[i..i + |needle|];
      OccursMoved(needle, seen + next, i, seen, i);
    }
  }

  /** A needle that ends in the new part starts no earlier than the carried overlap. */
  lemma OverlapSuffices(needle: Bytes, seen: Bytes, next: Bytes, overlap: nat)
    requires |needle| <= overlap + 1
    requires next != []
    ensures Occurs(needle, seen + next) <==> (seen != [] && Occurs(needle, seen)) || Occurs(needle, Tail(seen, overlap) + next)
  {
    OccursInWhole(needle, seen, next, overlap);
    if Occurs(needle, seen + next) { OccursInPart(needle, seen, next, overlap); }
  }

  predicate ShortEnough(needles: seq<Bytes>, overlap: nat) {
    forall k :: 0 <= k < |needles| ==> |needles[k]| <= overlap + 1
  }

  lemma OverlapSufficesForAll(needles: seq<Bytes>, seen: Bytes, next: Bytes, overlap: nat)
    requires ShortEnough(needles, overlap) && next != []
    ensures AnyOccurs(needles, seen + next) <==>
            (seen != [] && AnyOccurs(needles, seen)) || AnyOccurs(needles, Tail(seen, overlap) + next)
  {
    forall k | 0 <= k < |needles|
      ensures Occurs(needles[k], seen + next) <==>
              (seen != [] && Occurs(needles[k], seen)) || Occurs(needles[k], Tail(seen, overlap) + next)
    {
      OverlapSuffices(needles[k], seen, next, overlap);
    }
  }

  lemma LowerOfTail(seen: Bytes, overlap: nat)
    ensures Lower(Tail(Lower(seen), overlap)) == Tail(Lower(seen), overlap)
  {
  }

  lemma TailOfTail(seen: Bytes, next: Bytes, overlap: nat)
    ensures Tail(Tail(seen, overlap) + next, overlap) == Tail(seen + next, overlap)
  {
  }

  /** One round of the loop: what is searched and what is carried over. */
  lemma ScanStep(needles: seq<Bytes>, seen: Bytes, block: Bytes, overlap: nat)
    requires ShortEnough(needles, overlap) && block != []
    ensures var content := Lower(Tail(Lower(seen), overlap) + block);
            && (AnyOccurs(needles, Lower(seen + block)) <==>
                (seen != [] && AnyOccurs(needles, Lower(seen))) || AnyOccurs(needles, content))
            && Tail(content, overlap) == Tail(Lower(seen + block), overlap)
  {
    LowerOfParts(seen, block);
    LowerOfParts(Tail(Lower(seen), overlap), block);
    LowerOfTail(seen, overlap);
    OverlapSufficesForAll(needles, Lower(seen), Lower(block), overlap);
    TailOfTail(Lower(seen), Lower(block), overlap);
  }

  /** Where the loop stands after `i` blocks without a find. */
  ghost predicate ScannedTo(needles: seq<Bytes>, blocks: seq<Bytes>, i: nat, overlap: nat, previous: Bytes) {
    && i <= |blocks| && previous == Tail(Lower(Concat(blocks[..i])), overlap)
    && (Concat(blocks[..i]) != [] ==> !AnyOccurs(needles, Lower(Concat(blocks[..i]))))
  }

  lemma ScanRound(needles: seq<Bytes>, blocks: seq<Bytes>, i: nat, overlap: nat, previous: Bytes)
    requires ShortEnough(needles, overlap) && ScannedTo(needles, blocks, i, overlap, previous)
    requires i < |blocks| && blocks[i] != []
    ensures var content := Lower(previous + blocks[i]);
      && Concat(blocks[..i + 1]) != []
      && (AnyOccurs(needles, content) <==> AnyOccurs(needles, Lower(Concat(blocks[..i + 1]))))
      && (!AnyOccurs(needles, content) ==> ScannedTo(needles, blocks, i + 1, overlap, Tail(content, overlap)))
  {
    assert blocks[..i + 1][..i] == blocks[..i];
    ScanStep(needles, Concat(blocks[..i]), blocks[i], overlap);
  }

  /** `_file_contains`.  For every way the reads split the file, the answer is whether some
      needle occurs in the lower-cased whole; an empty file contains nothing, not even an
      empty needle. */
  method FileContains(blocks: seq<Bytes>, texts: seq<Text>) returns (found: bool)
    requires forall b <- blocks :: b != []
    ensures found <==> Concat(blocks) != [] && AnyOccurs(AllNeedles(texts), Lower(Concat(blocks)))
  {
    var needles := AllNeedles(texts);
    LongestBounds(needles);
    var longest := Longest(needles);
    // With nothing but empty needles the first block already matches, so no overlap is used.
    var overlap := if longest == 0 then 0 else longest - 1;
    var previous: Bytes := [];
    assert blocks[..0] == [];
    for i := 0 to |blocks|
      invariant ScannedTo(needles, blocks, i, overlap, previous)
    {
      assert blocks[i] in blocks;
      ScanRound(needles, blocks, i, overlap, previous);
      var content := Lower(previous + blocks[i]);
      if AnyOccurs(needles, content) {
        LaterBlocksKeepIt(needles, blocks, i + 1);
        return true;
      }
      previous := Tail(content, overlap);
    }
    assert blocks[..|blocks|] == blocks;
    return false;
  }

  lemma {:induction false} LaterBlocksKeepIt(needles: seq<Bytes>, blocks: seq<Bytes>, n: nat)
    requires n <= |blocks|
    requires AnyOccurs(needles, Lower(Concat(blocks[..n]))) && Concat(blocks[..n]) != []
    ensures AnyOccurs(needles, Lower(Concat(blocks))) && Concat(blocks) != []
    decreases |blocks|
  {
    if n == |blocks| {
      assert blocks[..n] == blocks;
    } else {
      var last := |blocks| - 1;
      assert blocks[..last][..n] == blocks[..n];
      LaterBlocksKeepIt(needles, blocks[..last], n);
      LowerOfParts(Concat(blocks[..last]), blocks[last]);
      PrefixKeepsIt(needles, Lower(Concat(blocks[..last])), Lower(blocks[last]));
    }
  }

  lemma PrefixKeepsIt(needles: seq<Bytes>, seen: Bytes, next: Bytes)
    requires AnyOccurs(needles, seen)
    ensures AnyOccurs(needles, seen + next)
  {
    var k :| 0 <= k < |needles| && Occurs(needles[k], seen);
    var i :| 0 <= i <= |seen| && OccursAt(needles[k], seen, i);
    assert (seen + next)[i..i + |needles[k]|] == seen[i..i + |needles[k]|];
    assert OccursAt(needles[k], seen + next, i);
    assert Occurs(needles[k], seen + next);
  }

  // ---- Which needles the scan can see at all ----

  /** No byte of the needle is one that lower-casing would have changed. */
  predicate Untouched(needle: Bytes) {
    forall i :: 0 <= i < |needle| ==> !Upper(needle[i])
  }

  /** A needle with a byte in the range of the ASCII capitals occurs in no lower-cased file. */
  lemma CapitalByteIsNeverFound(needle: Bytes, data: Bytes)
    requires !Untouched(needle)
    ensures !Occurs(needle, Lower(data))
  {
    var j :| 0 <= j < |needle| && Upper(needle[j]);
    forall i | 0 <= i <= |data| ensures !OccursAt(needle, Lower(data), i) {
      if i + |needle| <= |data| {
        assert Lower(data)[i..i + |needle|][j] == LowerByte(data[i + j]);
      }
    }
  }

  /** Exactly the needles without such a byte are found wherever a file contains them. */
  lemma SeenExactlyWhenUntouched(needle: Bytes)
    ensures (forall data :: Occurs(needle, data) ==> Occurs(needle, Lower(data))) <==> Untouched(needle)
  {
    if Untouched(needle) {
      forall data | Occurs(needle, data) ensures Occurs(needle, Lower(data)) {
        var i :| 0 <= i <= |data| && OccursAt(needle, data, i);
        forall j | 0 <= j < |needle| ensures Lower(data)[i..i + |needle|][j] == needle[j] {
          assert data[i..i + |needle|][j] == data[i + j];
        }
        assert Lower(data)[i..i + |needle|] == needle;
        assert OccursAt(needle, Lower(data), i);
      }
    } else {
      assert needle[0..0 + |needle|] == needle;
      assert OccursAt(needle, needle, 0);
      CapitalByteIsNeverFound(needle, needle);
    }
  }

  lemma UntouchedParts(a: Bytes, b: Bytes)
    ensures Untouched(a + b) <==> Untouched(a) && Untouched(b)
  {
    assert forall i :: 0 <= i < |a| ==> (a + b)[i] == a[i];
    assert forall i :: 0 <= i < |b| ==> (a + b)[|a| + i] == b[i];
  }

  /** Which texts the UTF-16LE half of the scan can see: those none of whose code units has
      a byte in the range of the capitals. */
  lemma {:induction false} Utf16UntouchedExactly(t: Text)
    ensures Untouched(Utf16le(t)) <==> forall k :: 0 <= k < |t| ==> Untouched(Utf16Of(t[k]))
  {
    if t != [] {
      Utf16UntouchedExactly(t[1..]);
      UntouchedParts(Utf16Of(t[0]), Utf16le(t[1..]));
      assert forall k :: 0 < k < |t| ==> t[k] == t[1..][k - 1];
    }
  }

  /** The UTF-16LE form of a path with an ideograph from U+4E00 to U+5AFF is invisible: its
      high bytes 0x4E..0x5A are what lower-casing rewrites. */
  lemma IdeographsAreInvisible(t: Text, k: nat, data: Bytes)
    requires k < |t| && 0x4E00 <= t[k] <= 0x5AFF
    ensures !Occurs(Utf16le(t), Lower(data))
  {
    assert Upper(Utf16Of(t[k])[1]);
    Utf16UntouchedExactly(t);
    CapitalByteIsNeverFound(Utf16le(t), data);
  }

  /** UTF-8 needles are not affected beyond ASCII: only a capital letter itself hides one. */
  lemma {:induction false} Utf8UntouchedExactly(t: Text)
    ensures Untouched(Utf8(t)) <==> forall k :: 0 <= k < |t| ==> !(0x41 <= t[k] <= 0x5A)
  {
    if t != [] {
      Utf8UntouchedExactly(t[1..]);
      UntouchedParts(Utf8Of(t[0]), Utf8(t[1..]));
      assert forall k :: 0 < k < |t| ==> t[k] == t[1..][k - 1];
      assert Utf8Of(t[0])[0] == t[0] || t[0] >= 0x80;
    }
  }
}
