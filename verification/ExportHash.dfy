/** What the export and value digests are computed over. A char stands for one byte; SHA-256 and
    the JSON encoder are functions the model is given. */
module ExportHash {
  import opened JsonKeys

  type Bytes = string

  datatype RenderOptions = RenderOptions(paperSize: string, landscape: bool)

  /** Everything that decides what a PDF looks like. */
  datatype Inputs = Inputs(contentHash: Bytes, templateVersion: Bytes, grammarVersion: Bytes, docgenVersion: Bytes, opts: RenderOptions)

  datatype Library = Library(sha: Bytes -> Bytes, encodeOptions: RenderOptions -> Bytes)

  const SEPARATOR: char := '\U{001E}'

  const NUL: char := '\0'

  /** The running input of a hash.Hash. */
  class Hasher {
    var written: Bytes

    constructor ()
      ensures written == []
    {
      written := [];
    }

    method Write(bytes: Bytes)
      modifies this
      ensures written == old(written) + bytes
    {
      written := written + bytes;
    }
  }

  // ----------------------------------------------------------- composite hash

  function Preimage(lib: Library, i: Inputs): Bytes {
    i.contentHash + [SEPARATOR] + (i.templateVersion + [SEPARATOR]
    + (i.grammarVersion + [SEPARATOR] + (i.docgenVersion + [SEPARATOR] + lib.encodeOptions(i.opts))))
  }

  function CompositeHash(lib: Library, i: Inputs): Bytes {
    lib.sha(Preimage(lib, i))
  }

  method ComputeCompositeHash(lib: Library, i: Inputs) returns (digest: Bytes)
    ensures digest == CompositeHash(lib, i)
    ensures digest == lib.sha(i.contentHash + ['\U{001E}'] + i.templateVersion + ['\U{001E}'] + i.grammarVersion
                              + ['\U{001E}'] + i.docgenVersion + ['\U{001E}'] + lib.encodeOptions(i.opts))
  {
    var h := new Hasher();
    h.Write(i.contentHash);
    h.Write([SEPARATOR]);
    h.Write(i.templateVersion);
    h.Write([SEPARATOR]);
    h.Write(i.grammarVersion);
    h.Write([SEPARATOR]);
    h.Write(i.docgenVersion);
    h.Write([SEPARATOR]);
    h.Write(lib.encodeOptions(i.opts));
    assert h.written == Preimage(lib, i);
    assert h.written == i.contentHash + ['\U{001E}'] + i.templateVersion + ['\U{001E}'] + i.grammarVersion
                        + ['\U{001E}'] + i.docgenVersion + ['\U{001E}'] + lib.encodeOptions(i.opts);
    digest := lib.sha(h.written);
  }

  predicate Free(c: char, s: Bytes) {
    forall i :: 0 <= i < |s| ==> s[i] != c
  }

  /** A field ends at the first separator. */
  lemma FirstField(c: char, a: Bytes, x: Bytes, b: Bytes, y: Bytes)
    requires Free(c, a) && Free(c, b) && a + [c] + x == b + [c] + y
    ensures a == b && x == y
  {
    var s := a + [c] + x;
    assert s[|a|] == c && s[|b|] == c;
    assert forall i :: 0 <= i < |a| ==> s[i] == a[i];
    assert forall i :: 0 <= i < |b| ==> s[i] == b[i];
    assert |a| == |b|;
    assert s[..|a|] == a && s[..|b|] == b;
    assert s[|a| + 1..] == x && s[|b| + 1..] == y;
  }

  ghost predicate Separable(i: Inputs) {
    |i.contentHash| == 32 && Free(SEPARATOR, i.templateVersion) && Free(SEPARATOR, i.grammarVersion) && Free(SEPARATOR, i.docgenVersion)
  }

  ghost predicate Injective(encode: RenderOptions -> Bytes) {
    forall a, b :: encode(a) == encode(b) ==> a == b
  }

  /** A 32-byte content hash and separator-free fields make the stream tell its inputs apart. */
  lemma PreimageTellsInputs(lib: Library, i: Inputs, j: Inputs)
    requires Separable(i) && Separable(j) && Injective(lib.encodeOptions)
    ensures Preimage(lib, i) == Preimage(lib, j) <==> i == j
  {
    if Preimage(lib, i) == Preimage(lib, j) {
      var s := Preimage(lib, i);
      assert s[..32] == i.contentHash && s[..32] == j.contentHash;
      var x := i.templateVersion + [SEPARATOR] + (i.grammarVersion + [SEPARATOR] + (i.docgenVersion + [SEPARATOR] + lib.encodeOptions(i.opts)));
      var y := j.templateVersion + [SEPARATOR] + (j.grammarVersion + [SEPARATOR] + (j.docgenVersion + [SEPARATOR] + lib.encodeOptions(j.opts)));
      assert s[33..] == x && s[33..] == y;
      FirstField(SEPARATOR, i.templateVersion, x[|i.templateVersion| + 1..], j.templateVersion, y[|j.templateVersion| + 1..]);
      FirstField(SEPARATOR, i.grammarVersion, i.docgenVersion + [SEPARATOR] + lib.encodeOptions(i.opts),
                 j.grammarVersion, j.docgenVersion + [SEPARATOR] + lib.encodeOptions(j.opts));
      FirstField(SEPARATOR, i.docgenVersion, lib.encodeOptions(i.opts), j.docgenVersion, lib.encodeOptions(j.opts));
    }
  }

  /** The rest of the stream after the content hash. */
  function Fields(a: Bytes, b: Bytes, c: Bytes, tail: Bytes): Bytes {
    a + [SEPARATOR] + (b + [SEPARATOR] + (c + [SEPARATOR] + tail))
  }

  function Count(c: char, s: Bytes): nat {
    if s == [] then 0 else Count(c, s[..|s| - 1]) + if s[|s| - 1] == c then 1 else 0
  }

  lemma {:induction false} CountJoin(c: char, s: Bytes, t: Bytes)
    ensures Count(c, s + t) == Count(c, s) + Count(c, t)
  {
    if t == [] {
      assert s + t == s;
    } else {
      assert (s + t)[..|s + t| - 1] == s + t[..|t| - 1];
      CountJoin(c, s, t[..|t| - 1]);
    }
  }

  lemma {:induction false} FreeIffNone(c: char, s: Bytes)
    ensures Free(c, s) <==> Count(c, s) == 0
  {
    if s != [] {
      FreeIffNone(c, s[..|s| - 1]);
      assert s == s[..|s| - 1] + [s[|s| - 1]];
    }
  }

  lemma CountFields(a: Bytes, b: Bytes, c: Bytes, tail: Bytes)
    ensures Count(SEPARATOR, Fields(a, b, c, tail))
            == Count(SEPARATOR, a) + Count(SEPARATOR, b) + Count(SEPARATOR, c) + 3 + Count(SEPARATOR, tail)
  {
    var sep := [SEPARATOR];
    assert Count(SEPARATOR, sep) == 1 by { assert sep[..0] == []; }
    CountJoin(SEPARATOR, c + sep, tail);
    CountJoin(SEPARATOR, c, sep);
    CountJoin(SEPARATOR, b + sep, c + sep + tail);
    CountJoin(SEPARATOR, b, sep);
    CountJoin(SEPARATOR, a + sep, b + sep + (c + sep + tail));
    CountJoin(SEPARATOR, a, sep);
  }

  /** JSON escapes control characters, so an encoding holds no separator. */
  ghost predicate Escapes(encode: RenderOptions -> Bytes) {
    forall o :: Free(SEPARATOR, encode(o))
  }

  /** Among inputs with a 32-byte content hash, this one's stream is its own. */
  ghost predicate StreamIsItsOwn(lib: Library, i: Inputs) {
    forall j: Inputs :: |j.contentHash| == 32 && Preimage(lib, j) == Preimage(lib, i) ==> j == i
  }

  lemma StreamParts(lib: Library, i: Inputs)
    requires |i.contentHash| == 32
    ensures Preimage(lib, i)[..32] == i.contentHash
    ensures Preimage(lib, i)[33..] == Fields(i.templateVersion, i.grammarVersion, i.docgenVersion, lib.encodeOptions(i.opts))
  {
  }

  /** Whoever shares the stream of separable inputs is separable too. */
  lemma SharesSeparability(lib: Library, i: Inputs, j: Inputs)
    requires Separable(i) && |j.contentHash| == 32 && Escapes(lib.encodeOptions) && Preimage(lib, i) == Preimage(lib, j)
    ensures Separable(j)
  {
    StreamParts(lib, i);
    StreamParts(lib, j);
    CountFields(i.templateVersion, i.grammarVersion, i.docgenVersion, lib.encodeOptions(i.opts));
    CountFields(j.templateVersion, j.grammarVersion, j.docgenVersion, lib.encodeOptions(j.opts));
    FreeIffNone(SEPARATOR, i.templateVersion);
    FreeIffNone(SEPARATOR, i.grammarVersion);
    FreeIffNone(SEPARATOR, i.docgenVersion);
    FreeIffNone(SEPARATOR, lib.encodeOptions(i.opts));
    FreeIffNone(SEPARATOR, j.templateVersion);
    FreeIffNone(SEPARATOR, j.grammarVersion);
    FreeIffNone(SEPARATOR, j.docgenVersion);
    FreeIffNone(SEPARATOR, lib.encodeOptions(j.opts));
  }

  lemma SplitAt(c: char, s: Bytes) returns (a: Bytes, b: Bytes)
    requires !Free(c, s)
    ensures s == a + [c] + b
  {
    var i :| 0 <= i < |s| && s[i] == c;
    a, b := s[..i], s[i + 1..];
  }

  /** Inputs with a separator in a field: moving it between fields gives other inputs with the same
      stream. */
  lemma MovedSeparator(lib: Library, i: Inputs) returns (j: Inputs)
    requires |i.contentHash| == 32 && !Separable(i)
    ensures j != i && j.contentHash == i.contentHash && Preimage(lib, j) == Preimage(lib, i)
  {
    var sep, tail := [SEPARATOR], lib.encodeOptions(i.opts);
    if !Free(SEPARATOR, i.templateVersion) {
      var a, b := SplitAt(SEPARATOR, i.templateVersion);
      j := i.(templateVersion := a, grammarVersion := b, docgenVersion := i.grammarVersion + sep + i.docgenVersion);
      assert |a| < |i.templateVersion|;
    } else if !Free(SEPARATOR, i.grammarVersion) {
      var a, b := SplitAt(SEPARATOR, i.grammarVersion);
      j := i.(templateVersion := i.templateVersion + sep + a, grammarVersion := b);
      assert |j.templateVersion| > |i.templateVersion|;
    } else {
      var a, b := SplitAt(SEPARATOR, i.docgenVersion);
      j := i.(templateVersion := i.templateVersion + sep + i.grammarVersion, grammarVersion := a, docgenVersion := b);
      assert |j.templateVersion| > |i.templateVersion|;
    }
    assert Fields(j.templateVersion, j.grammarVersion, j.docgenVersion, tail)
           == Fields(i.templateVersion, i.grammarVersion, i.docgenVersion, tail);
  }

  /** A stream belongs to one input exactly when that input's fields are free of separators. */
  lemma StreamIsItsOwnIff(lib: Library, i: Inputs)
    requires |i.contentHash| == 32 && Injective(lib.encodeOptions) && Escapes(lib.encodeOptions)
    ensures StreamIsItsOwn(lib, i) <==> Separable(i)
  {
    if Separable(i) {
      forall j: Inputs | |j.contentHash| == 32 && Preimage(lib, j) == Preimage(lib, i) ensures j == i {
        SharesSeparability(lib, i, j);
        PreimageTellsInputs(lib, i, j);
      }
    } else {
      var j := MovedSeparator(lib, i);
    }
  }

  // -------------------------------------------------------------- values hash

  function InsertKey(k: string, ks: seq<string>): seq<string> {
    if ks == [] || !Before(ks[0], k) then [k] + ks else [ks[0]] + InsertKey(k, ks[1..])
  }

  /** sort.Strings: byte order. */
  function SortStrings(ks: seq<string>): seq<string> {
    if ks == [] then [] else InsertKey(ks[0], SortStrings(ks[1..]))
  }

  ghost predicate Sorted(ks: seq<string>) {
    forall i, j :: 0 <= i < j < |ks| ==> Before(ks[i], ks[j])
  }

  lemma {:induction false} InsertKeyKeeps(k: string, ks: seq<string>)
    requires Sorted(ks) && k !in ks
    ensures Sorted(InsertKey(k, ks)) && forall x :: x in InsertKey(k, ks) <==> x == k || x in ks
  {
    if ks == [] {
    } else {
      BeforeTotal(ks[0], k);
      if Before(ks[0], k) {
        InsertKeyKeeps(k, ks[1..]);
        var rest := InsertKey(k, ks[1..]);
        forall j | 0 <= j < |rest| ensures Before(ks[0], rest[j]) {
          assert rest[j] in rest;
        }
      } else {
        forall j | 0 <= j < |ks| ensures Before(k, ks[j]) {
          if j > 0 { BeforeTrans(k, ks[0], ks[j]); }
        }
      }
    }
  }

  ghost predicate NoRepeats(ks: seq<string>) {
    forall i, j :: 0 <= i < j < |ks| ==> ks[i] != ks[j]
  }

  lemma {:induction false} SortStringsSorts(ks: seq<string>)
    requires NoRepeats(ks)
    ensures Sorted(SortStrings(ks)) && forall x :: x in SortStrings(ks) <==> x in ks
  {
    if ks != [] {
      SortStringsSorts(ks[1..]);
      assert ks[0] !in ks[1..];
      InsertKeyKeeps(ks[0], SortStrings(ks[1..]));
    }
  }

  lemma {:induction false} SortedUnique(xs: seq<string>, ys: seq<string>)
    requires Sorted(xs) && Sorted(ys) && forall k :: k in xs <==> k in ys
    ensures xs == ys
  {
    if xs == [] {
      assert forall i :: 0 <= i < |ys| ==> ys[i] in ys;
    } else {
      assert xs[0] in ys && ys != [] && ys[0] in xs;
      SortedFirst(xs, ys[0]);
      SortedFirst(ys, xs[0]);
      BeforeTotal(xs[0], ys[0]);
      forall k ensures k in xs[1..] <==> k in ys[1..] {
        SortedRest(xs, k);
        SortedRest(ys, k);
      }
      SortedUnique(xs[1..], ys[1..]);
    }
  }

  lemma SortedFirst(xs: seq<string>, k: string)
    requires Sorted(xs) && k in xs
    ensures k == xs[0] || Before(xs[0], k)
  {
  }

  lemma SortedRest(xs: seq<string>, k: string)
    requires Sorted(xs) && xs != []
    ensures k in xs[1..] <==> k in xs && k != xs[0]
  {
    if k in xs[1..] {
      var i :| 0 <= i < |xs[1..]| && xs[1..][i] == k;
      assert xs[i + 1] == k;
      BeforeTotal(xs[0], k);
    }
  }

  predicate Covers(values: map<string, Bytes>, keys: seq<string>) {
    forall i :: 0 <= i < |keys| ==> keys[i] in values
  }

  /** The bytes hashed for keys in this order. */
  function Stream(values: map<string, Bytes>, keys: seq<string>): Bytes
    requires Covers(values, keys)
  {
    if keys == [] then []
    else Stream(values, keys[..|keys| - 1]) + (keys[|keys| - 1] + [NUL]) + (values[keys[|keys| - 1]] + [NUL])
  }

  /** The map's keys in byte order: there is exactly one such list. */
  ghost predicate SortedKeysOf(values: map<string, Bytes>, keys: seq<string>) {
    Covers(values, keys) && Sorted(keys) && forall k :: k in keys <==> k in values
  }

  /** Ranging over a map yields its keys in an order of its own; they are sorted in place. */
  method CollectKeys(values: map<string, Bytes>) returns (keys: seq<string>)
    ensures SortedKeysOf(values, keys)
  {
    keys := [];
    var left := values.Keys;
    while left != {}
      invariant left <= values.Keys && NoRepeats(keys)
      invariant forall k :: k in keys <==> k in values.Keys - left
      decreases |left|
    {
      var k :| k in left;
      assert k !in keys;
      keys := keys + [k];
      left := left - {k};
    }
    SortStringsSorts(keys);
    keys := SortStrings(keys);
    assert forall i :: 0 <= i < |keys| ==> keys[i] in keys;
  }

  lemma StreamOneMore(values: map<string, Bytes>, keys: seq<string>, k: string)
    requires Covers(values, keys) && k in values
    ensures Covers(values, keys + [k])
    ensures Stream(values, keys + [k]) == Stream(values, keys) + k + [NUL] + values[k] + [NUL]
  {
    assert (keys + [k])[..|keys|] == keys;
  }

  /** `values` maps each key to its JSON encoding; the digest depends on the map alone. */
  method ComputeValuesHash(sha: Bytes -> Bytes, values: map<string, Bytes>) returns (digest: Bytes)
    ensures exists keys :: SortedKeysOf(values, keys)
    ensures forall keys :: SortedKeysOf(values, keys) ==> digest == sha(Stream(values, keys))
  {
    var sorted := CollectKeys(values);
    var h := new Hasher();
    for i := 0 to |sorted|
      invariant Covers(values, sorted[..i]) && h.written == Stream(values, sorted[..i])
    {
      StreamOneMore(values, sorted[..i], sorted[i]);
      assert sorted[..i + 1] == sorted[..i] + [sorted[i]];
      h.Write(sorted[i]);
      h.Write([NUL]);
      h.Write(values[sorted[i]]);
      h.Write([NUL]);
    }
    assert sorted[..|sorted|] == sorted;
    digest := sha(h.written);
    forall other | SortedKeysOf(values, other) ensures other == sorted {
      SortedUnique(other, sorted);
    }
  }

  ghost predicate NulFree(values: map<string, Bytes>) {
    forall k :: k in values ==> Free(NUL, k) && Free(NUL, values[k])
  }

  ghost predicate Closed(s: Bytes) {
    s == [] || s[|s| - 1] == NUL
  }

  /** The last field starts after the last NUL before it. */
  lemma LastField(x: Bytes, a: Bytes, y: Bytes, b: Bytes)
    requires Closed(x) && Closed(y) && Free(NUL, a) && Free(NUL, b) && x + (a + [NUL]) == y + (b + [NUL])
    ensures x == y && a == b
  {
    var s := x + a;
    assert x + (a + [NUL]) == s + [NUL] && y + (b + [NUL]) == (y + b) + [NUL];
    assert (s + [NUL])[..|s|] == s && ((y + b) + [NUL])[..|s|] == y + b;
    assert forall i :: |x| <= i < |s| ==> s[i] == a[i - |x|];
    assert forall i :: |y| <= i < |s| ==> s[i] == b[i - |y|];
    assert x != [] ==> s[|x| - 1] == NUL;
    assert y != [] ==> s[|y| - 1] == NUL;
    assert |x| == |y|;
    assert s[..|x|] == x && s[..|x|] == y && s[|x|..] == a && s[|x|..] == b;
  }

  lemma EmptyStream(m: map<string, Bytes>, ks: seq<string>)
    requires Covers(m, ks)
    ensures Stream(m, ks) == [] <==> ks == []
  {
  }

  lemma {:induction false} StreamTellsEntries(m: map<string, Bytes>, ks: seq<string>, n: map<string, Bytes>, ls: seq<string>)
    requires Covers(m, ks) && Covers(n, ls) && NulFree(m) && NulFree(n) && Stream(m, ks) == Stream(n, ls)
    ensures Closed(Stream(m, ks))
    ensures ks == ls && forall i :: 0 <= i < |ks| ==> m[ks[i]] == n[ks[i]]
  {
    EmptyStream(m, ks);
    EmptyStream(n, ls);
    if ks != [] && ls != [] {
      var k, l := ks[|ks| - 1], ls[|ls| - 1];
      var x, y := Stream(m, ks[..|ks| - 1]), Stream(n, ls[..|ls| - 1]);
      StreamCloses(m, ks[..|ks| - 1]);
      StreamCloses(n, ls[..|ls| - 1]);
      LastField(x + (k + [NUL]), m[k], y + (l + [NUL]), n[l]);
      LastField(x, k, y, l);
      StreamTellsEntries(m, ks[..|ks| - 1], n, ls[..|ls| - 1]);
      assert ks == ks[..|ks| - 1] + [k] && ls == ls[..|ls| - 1] + [l];
    }
  }

  lemma StreamCloses(m: map<string, Bytes>, ks: seq<string>)
    requires Covers(m, ks)
    ensures Closed(Stream(m, ks))
  {
  }

  /** For NUL-free keys and encodings the hashed stream determines the whole map. */
  lemma StreamTellsValues(m: map<string, Bytes>, ks: seq<string>, n: map<string, Bytes>, ls: seq<string>)
    requires SortedKeysOf(m, ks) && SortedKeysOf(n, ls) && NulFree(m) && NulFree(n)
    ensures Stream(m, ks) == Stream(n, ls) <==> m == n
  {
    if m == n { SortedUnique(ks, ls); }
    if Stream(m, ks) == Stream(n, ls) {
      StreamTellsEntries(m, ks, n, ls);
      assert m.Keys == n.Keys;
      forall k | k in m ensures m[k] == n[k] {
        var i :| 0 <= i < |ks| && ks[i] == k;
      }
    }
  }

  // ----------------------------------------------- which streams are alone

  lemma NulsOfEntry(k: string, v: Bytes)
    ensures Count(NUL, (k + [NUL]) + (v + [NUL])) == Count(NUL, k) + Count(NUL, v) + 2
  {
    CountJoin(NUL, k, [NUL]);
    CountJoin(NUL, v, [NUL]);
    CountJoin(NUL, k + [NUL], v + [NUL]);
    assert Count(NUL, [NUL]) == 1 by { assert [NUL][..0] == []; }
  }

  lemma NulsOfLast(m: map<string, Bytes>, ks: seq<string>)
    requires Covers(m, ks) && ks != []
    ensures var n := |ks| - 1;
            Count(NUL, Stream(m, ks)) == Count(NUL, Stream(m, ks[..n])) + Count(NUL, ks[n]) + Count(NUL, m[ks[n]]) + 2
  {
    var n := |ks| - 1;
    var before, entry := Stream(m, ks[..n]), (ks[n] + [NUL]) + (m[ks[n]] + [NUL]);
    NulsOfEntry(ks[n], m[ks[n]]);
    assert Stream(m, ks) == before + entry;
    CountJoin(NUL, before, entry);
  }

  ghost predicate FreeEntries(m: map<string, Bytes>, ks: seq<string>)
    requires Covers(m, ks)
  {
    forall i :: 0 <= i < |ks| ==> Free(NUL, ks[i]) && Free(NUL, m[ks[i]])
  }

  /** Every entry writes two NULs and those it holds itself. */
  lemma {:induction false} NulsOfStream(m: map<string, Bytes>, ks: seq<string>)
    requires Covers(m, ks)
    ensures Count(NUL, Stream(m, ks)) >= 2 * |ks|
    ensures Count(NUL, Stream(m, ks)) == 2 * |ks| <==> FreeEntries(m, ks)
  {
    if ks != [] {
      var n := |ks| - 1;
      NulsOfStream(m, ks[..n]);
      NulsOfLast(m, ks);
      FreeIffNone(NUL, ks[n]);
      FreeIffNone(NUL, m[ks[n]]);
      assert ks == ks[..n] + [ks[n]];
    }
  }

  /** No other map makes this stream. */
  ghost predicate Alone(m: map<string, Bytes>, ks: seq<string>)
    requires SortedKeysOf(m, ks)
  {
    forall n: map<string, Bytes>, ls: seq<string> :: SortedKeysOf(n, ls) && Stream(n, ls) == Stream(m, ks) ==> n == m
  }

  lemma NulFreeIff(m: map<string, Bytes>, ks: seq<string>)
    requires SortedKeysOf(m, ks)
    ensures NulFree(m) <==> FreeEntries(m, ks)
  {
    if FreeEntries(m, ks) {
      forall k | k in m ensures Free(NUL, k) && Free(NUL, m[k]) {
        var i :| 0 <= i < |ks| && ks[i] == k;
      }
    }
  }

  lemma OneEntryIsAlone(m: map<string, Bytes>, ks: seq<string>)
    requires SortedKeysOf(m, ks) && |ks| <= 1 && NulFree(m)
    ensures Alone(m, ks)
  {
    NulsOfStream(m, ks);
    NulFreeIff(m, ks);
    forall n: map<string, Bytes>, ls: seq<string> | SortedKeysOf(n, ls) && Stream(n, ls) == Stream(m, ks) ensures n == m {
      NulsOfStream(n, ls);
      EmptyStream(m, ks);
      EmptyStream(n, ls);
      NulFreeIff(n, ls);
      StreamTellsValues(m, ks, n, ls);
    }
  }

  lemma SingleEntry(k: string, v: Bytes)
    ensures SortedKeysOf(map[k := v], [k]) && Stream(map[k := v], [k]) == (k + [NUL]) + (v + [NUL])
  {
    assert [k][..0] == [];
    assert Stream(map[k := v], []) == [];
  }

  lemma FindNul(a: Bytes) returns (i: nat)
    requires !Free(NUL, a)
    ensures i < |a| && a == a[..i] + [NUL] + a[i + 1..]
  {
    i :| 0 <= i < |a| && a[i] == NUL;
  }

  /** Two entries or more read like one whose key runs up to the last value; a NUL inside an
      entry can be read as the one between key and value. */
  lemma OthersAreNot(m: map<string, Bytes>, ks: seq<string>) returns (k: string, v: Bytes)
    requires SortedKeysOf(m, ks) && (|ks| > 1 || !NulFree(m))
    ensures map[k := v] != m && Stream(map[k := v], [k]) == Stream(m, ks) && SortedKeysOf(map[k := v], [k])
  {
    NulFreeIff(m, ks);
    var n := |ks| - 1;
    var last, value, before := ks[n], m[ks[n]], Stream(m, ks[..n]);
    if |ks| > 1 {
      k, v := before + last, value;
      assert (k + [NUL]) + (v + [NUL]) == before + (last + [NUL]) + (value + [NUL]);
      assert ks[0] in m && ks[1] in m && ks[0] != ks[1] by { BeforeTotal(ks[0], ks[1]); }
    } else if !Free(NUL, last) {
      var i := FindNul(last);
      k, v := last[..i], last[i + 1..] + [NUL] + value;
      assert (k + [NUL]) + (v + [NUL]) == [] + (last + [NUL]) + (value + [NUL]);
      assert last in m && last != k;
    } else {
      var i := FindNul(value);
      k, v := last + [NUL] + value[..i], value[i + 1..];
      assert (k + [NUL]) + (v + [NUL]) == [] + (last + [NUL]) + (value + [NUL]);
      assert last in m && last != k;
    }
    SingleEntry(k, v);
  }

  /** A stream stands for its map alone, among all maps, exactly when that has at most one entry
      and no NUL in it. */
  lemma AloneIff(m: map<string, Bytes>, ks: seq<string>)
    requires SortedKeysOf(m, ks)
    ensures Alone(m, ks) <==> |ks| <= 1 && NulFree(m)
  {
    if |ks| <= 1 && NulFree(m) {
      OneEntryIsAlone(m, ks);
    } else {
      var k, v := OthersAreNot(m, ks);
      assert SortedKeysOf(map[k := v], [k]);
    }
  }
}
