/** One instance of the assumed primitives, to show that what is assumed of them can be met,
    freedom from collisions included. */
module ToyPrimitives {
  import opened Wrappers
  import opened Messages
  import opened Primitives
  import opened BlobStore
  import opened BlobCodec
  import opened Calls
  import opened Server
  import opened Invariant
  import opened ActionResults

  // ----- An injective encoding of action results ---------------------------

  function EncodeNat(n: nat): Bytes {
    if n == 0 then [0] else [1] + EncodeNat(n - 1)
  }

  function EncodeInt(i: int): Bytes {
    if i < 0 then [1] + EncodeNat(-i) else [0] + EncodeNat(i)
  }

  function EncodeChars(s: string): Bytes {
    if s == "" then [0] else [1] + (EncodeNat(s[0] as int) + EncodeChars(s[1..]))
  }

  function EncodeBytes(b: Bytes): Bytes {
    EncodeNat(|b|) + b
  }

  function EncodeDigest(d: Option<Digest>): Bytes {
    match d
    case None => [0]
    case Some(digest) => [1] + (EncodeChars(digest.hash) + EncodeInt(digest.sizeBytes))
  }

  /** An output file or an output directory: a digest and the rest. */
  function EncodeEntry(d: Option<Digest>, rest: Bytes): Bytes {
    EncodeDigest(d) + EncodeBytes(rest)
  }

  function EncodeFiles(files: seq<OutputFile>): Bytes {
    if files == [] then [0] else [1] + (EncodeEntry(files[0].digest, files[0].rest) + EncodeFiles(files[1..]))
  }

  function EncodeDirectories(directories: seq<OutputDirectory>): Bytes {
    if directories == [] then [0]
    else [1] + (EncodeEntry(directories[0].treeDigest, directories[0].rest) + EncodeDirectories(directories[1..]))
  }

  function EncodeResult(r: ActionResult): Bytes {
    EncodeFiles(r.outputFiles) + (EncodeDirectories(r.outputDirectories) +
      (EncodeDigest(r.stdoutDigest) + (EncodeDigest(r.stderrDigest) + r.rest)))
  }

  // Each encoding can be told from whatever follows it.

  /** A tagged encoding: equal tags, and equal bodies with what follows. */
  lemma Tags(x: Byte, a: Bytes, s: Bytes, y: Byte, b: Bytes, t: Bytes)
    requires ([x] + a) + s == ([y] + b) + t
    ensures x == y && a + s == b + t
  {
    var left, right := ([x] + a) + s, ([y] + b) + t;
    assert left[0] == x && right[0] == y;
    assert left[1..] == a + s && right[1..] == b + t;
  }

  lemma Regroup(a: Bytes, b: Bytes, s: Bytes)
    ensures (a + b) + s == a + (b + s)
  {
  }

  lemma Bare(x: Byte, s: Bytes)
    ensures [x] + s == ([x] + []) + s && [] + s == s
  {
  }

  lemma {:induction false} NatApart(m: nat, n: nat, s: Bytes, t: Bytes)
    requires EncodeNat(m) + s == EncodeNat(n) + t
    ensures m == n && s == t
  {
    var (a, b) := (if m == 0 then [] else EncodeNat(m - 1), if n == 0 then [] else EncodeNat(n - 1));
    Bare(0, s);
    Bare(0, t);
    Tags(if m == 0 then 0 else 1, a, s, if n == 0 then 0 else 1, b, t);
    if m == 0 {
    } else {
      NatApart(m - 1, n - 1, s, t);
    }
  }

  lemma IntApart(m: int, n: int, s: Bytes, t: Bytes)
    requires EncodeInt(m) + s == EncodeInt(n) + t
    ensures m == n && s == t
  {
    hide EncodeNat;
    var (i, j) := (if m < 0 then -m else m, if n < 0 then -n else n);
    Tags(if m < 0 then 1 else 0, EncodeNat(i), s, if n < 0 then 1 else 0, EncodeNat(j), t);
    NatApart(i, j, s, t);
  }

  lemma {:induction false} CharsApart(a: string, b: string, s: Bytes, t: Bytes)
    requires EncodeChars(a) + s == EncodeChars(b) + t
    ensures a == b && s == t
  {
    hide EncodeNat;
    var x := if a == "" then [] else EncodeNat(a[0] as int) + EncodeChars(a[1..]);
    var y := if b == "" then [] else EncodeNat(b[0] as int) + EncodeChars(b[1..]);
    Bare(0, s);
    Bare(0, t);
    Tags(if a == "" then 0 else 1, x, s, if b == "" then 0 else 1, y, t);
    if a == "" {
    } else {
      Regroup(EncodeNat(a[0] as int), EncodeChars(a[1..]), s);
      Regroup(EncodeNat(b[0] as int), EncodeChars(b[1..]), t);
      NatApart(a[0] as int, b[0] as int, EncodeChars(a[1..]) + s, EncodeChars(b[1..]) + t);
      CharsApart(a[1..], b[1..], s, t);
      assert a == [a[0]] + a[1..] && b == [b[0]] + b[1..];
    }
  }

  lemma BytesApart(a: Bytes, b: Bytes, s: Bytes, t: Bytes)
    requires EncodeBytes(a) + s == EncodeBytes(b) + t
    ensures a == b && s == t
  {
    Regroup(EncodeNat(|a|), a, s);
    Regroup(EncodeNat(|b|), b, t);
    NatApart(|a|, |b|, a + s, b + t);
    assert (a + s)[..|a|] == a && (b + t)[..|b|] == b;
    assert (a + s)[|a|..] == s && (b + t)[|b|..] == t;
  }

  lemma DigestApart(a: Option<Digest>, b: Option<Digest>, s: Bytes, t: Bytes)
    requires EncodeDigest(a) + s == EncodeDigest(b) + t
    ensures a == b && s == t
  {
    hide EncodeChars, EncodeInt;
    var x := if a.None? then [] else EncodeChars(a.value.hash) + EncodeInt(a.value.sizeBytes);
    var y := if b.None? then [] else EncodeChars(b.value.hash) + EncodeInt(b.value.sizeBytes);
    Bare(0, s);
    Bare(0, t);
    Tags(if a.None? then 0 else 1, x, s, if b.None? then 0 else 1, y, t);
    if a.Some? {
      Regroup(EncodeChars(a.value.hash), EncodeInt(a.value.sizeBytes), s);
      Regroup(EncodeChars(b.value.hash), EncodeInt(b.value.sizeBytes), t);
      CharsApart(a.value.hash, b.value.hash, EncodeInt(a.value.sizeBytes) + s, EncodeInt(b.value.sizeBytes) + t);
      IntApart(a.value.sizeBytes, b.value.sizeBytes, s, t);
    }
  }

  lemma EntryApart(a: Option<Digest>, x: Bytes, b: Option<Digest>, y: Bytes, s: Bytes, t: Bytes)
    requires EncodeEntry(a, x) + s == EncodeEntry(b, y) + t
    ensures a == b && x == y && s == t
  {
    hide EncodeDigest, EncodeBytes;
    Regroup(EncodeDigest(a), EncodeBytes(x), s);
    Regroup(EncodeDigest(b), EncodeBytes(y), t);
    DigestApart(a, b, EncodeBytes(x) + s, EncodeBytes(y) + t);
    BytesApart(x, y, s, t);
  }

  lemma {:induction false} FilesApart(a: seq<OutputFile>, b: seq<OutputFile>, s: Bytes, t: Bytes)
    requires EncodeFiles(a) + s == EncodeFiles(b) + t
    ensures a == b && s == t
  {
    hide EncodeEntry;
    var x := if a == [] then [] else EncodeEntry(a[0].digest, a[0].rest) + EncodeFiles(a[1..]);
    var y := if b == [] then [] else EncodeEntry(b[0].digest, b[0].rest) + EncodeFiles(b[1..]);
    Bare(0, s);
    Bare(0, t);
    Tags(if a == [] then 0 else 1, x, s, if b == [] then 0 else 1, y, t);
    if a == [] {
    } else {
      Regroup(EncodeEntry(a[0].digest, a[0].rest), EncodeFiles(a[1..]), s);
      Regroup(EncodeEntry(b[0].digest, b[0].rest), EncodeFiles(b[1..]), t);
      EntryApart(a[0].digest, a[0].rest, b[0].digest, b[0].rest, EncodeFiles(a[1..]) + s, EncodeFiles(b[1..]) + t);
      FilesApart(a[1..], b[1..], s, t);
      assert a == [a[0]] + a[1..] && b == [b[0]] + b[1..];
    }
  }

  lemma {:induction false} DirectoriesApart(a: seq<OutputDirectory>, b: seq<OutputDirectory>, s: Bytes, t: Bytes)
    requires EncodeDirectories(a) + s == EncodeDirectories(b) + t
    ensures a == b && s == t
  {
    hide EncodeEntry;
    var x := if a == [] then [] else EncodeEntry(a[0].treeDigest, a[0].rest) + EncodeDirectories(a[1..]);
    var y := if b == [] then [] else EncodeEntry(b[0].treeDigest, b[0].rest) + EncodeDirectories(b[1..]);
    Bare(0, s);
    Bare(0, t);
    Tags(if a == [] then 0 else 1, x, s, if b == [] then 0 else 1, y, t);
    if a == [] {
    } else {
      Regroup(EncodeEntry(a[0].treeDigest, a[0].rest), EncodeDirectories(a[1..]), s);
      Regroup(EncodeEntry(b[0].treeDigest, b[0].rest), EncodeDirectories(b[1..]), t);
      EntryApart(a[0].treeDigest, a[0].rest, b[0].treeDigest, b[0].rest, EncodeDirectories(a[1..]) + s,
          EncodeDirectories(b[1..]) + t);
      DirectoriesApart(a[1..], b[1..], s, t);
      assert a == [a[0]] + a[1..] && b == [b[0]] + b[1..];
    }
  }

  lemma ResultApart(a: ActionResult, b: ActionResult)
    requires EncodeResult(a) == EncodeResult(b)
    ensures a == b
  {
    hide EncodeFiles, EncodeDirectories, EncodeDigest;
    var (a3, b3) := (EncodeDigest(a.stderrDigest) + a.rest, EncodeDigest(b.stderrDigest) + b.rest);
    var (a2, b2) := (EncodeDigest(a.stdoutDigest) + a3, EncodeDigest(b.stdoutDigest) + b3);
    FilesApart(a.outputFiles, b.outputFiles, EncodeDirectories(a.outputDirectories) + a2,
        EncodeDirectories(b.outputDirectories) + b2);
    DirectoriesApart(a.outputDirectories, b.outputDirectories, a2, b2);
    DigestApart(a.stdoutDigest, b.stdoutDigest, a3, b3);
    DigestApart(a.stderrDigest, b.stderrDigest, a.rest, b.rest);
  }

  // ----- The instance ------------------------------------------------------

  function Letters(d: Bytes): string {
    seq(|d|, i requires 0 <= i < |d| => (d[i] as int) as char)
  }

  function ToyHash(d: Bytes): string {
    EMPTY_SHA256 + Letters(d)
  }

  function ToyDecoder(c: Bytes): Decoding {
    if c != [] && c[0] == 1 then Decoding(c[1..], true) else Decoding([], false)
  }

  ghost function ToyDecodeResult(b: Bytes): Option<ActionResult> {
    if r :| EncodeResult(r) == b then Some(r) else None
  }

  /** Every blob is an action whose command is the empty blob, and a tree that holds the empty blob
      in its root and in its one child. */
  const TOY_ACTION := Action(Some(Digest(EMPTY_SHA256, 0)), [])
  const TOY_DIRECTORY := Directory([FileNode(Some(Digest(EMPTY_SHA256, 0)), [])], [])
  const TOY_TREE := Tree(Some(TOY_DIRECTORY), [TOY_DIRECTORY])

  /** A result with one output directory, whose tree is the empty blob. */
  const TOY_RESULT := ActionResult([], [OutputDirectory(Some(TOY_EMPTY), [])], None, None, [])

  ghost function Toy(): Primitives {
    Primitives(ToyHash, d => [1] + d, ToyDecoder, EncodeResult, ToyDecodeResult,
               b => Some(TOY_ACTION), b => Some(TOY_TREE))
  }

  lemma ToyHashIsInjective(a: Bytes, b: Bytes)
    requires ToyHash(a) == ToyHash(b)
    ensures a == b
  {
    var k := |EMPTY_SHA256|;
    assert Letters(a) == ToyHash(a)[k..] && Letters(b) == ToyHash(b)[k..];
    assert |a| == |Letters(a)| && |b| == |Letters(b)|;
    forall i | 0 <= i < |a|
      ensures a[i] == b[i]
    {
      assert Letters(a)[i] == (a[i] as int) as char && Letters(b)[i] == (b[i] as int) as char;
    }
  }

  /** The laws hold together, and no contents at all collide. */
  lemma AssumptionsAreConsistent(contents: set<Bytes>)
    ensures Lawful(Toy()) && CollisionFree(Toy(), contents)
  {
    var p := Toy();
    assert EMPTY_SHA256 + Letters([]) == EMPTY_SHA256;
    forall d: Bytes
      ensures p.decoder(p.compress(d)) == Decoding(d, true)
    {
      assert ([1] + d)[1..] == d;
    }
    forall r
      ensures p.decodeResult(p.encodeResult(r)) == Some(r)
    {
      var found := ToyDecodeResult(EncodeResult(r));
      ResultApart(found.value, r);
    }
    forall a, b | a in contents && b in contents && p.sha256(a) == p.sha256(b)
      ensures a == b
    {
      ToyHashIsInjective(a, b);
    }
  }

  const TOY_SCOPE := Scope("", Sha256)
  const TOY_EMPTY := Digest(EMPTY_SHA256, 0)

  /** The store that holds the empty blob. */
  const TOY_STORE: Store := map[TOY_SCOPE.CasKey(EMPTY_SHA256) := IdentityBlob([])]

  lemma ToyStoreIsSound()
    ensures StoreOk(Toy(), TOY_STORE) && ContentOf(Toy(), TOY_STORE[TOY_SCOPE.CasKey(EMPTY_SHA256)]) == []
  {
    AssumptionsAreConsistent({});
    EmptyIsCasEntry(Toy(), TOY_SCOPE);
    hide CasEntry;
  }

  lemma ToyTreeDigests()
    ensures TreeDigests(TOY_TREE).Some? && TreeDigests(TOY_TREE).value == [TOY_EMPTY, TOY_EMPTY]
  {
    var root := TOY_DIRECTORY;
    assert NodeDigests(root.files[1..]) == Some([]) && NodeDigests(root.files) == Some([TOY_EMPTY] + []);
    var both := [root] + [root];
    assert both[1..] == [root] && [root][1..] == [];
    assert DirectoriesDigests([]) == Some([]) && DirectoriesDigests([root]) == Some([TOY_EMPTY] + [] + []);
    assert DirectoriesDigests(both) == Some([TOY_EMPTY] + [] + ([TOY_EMPTY] + [] + []));
    assert [TOY_EMPTY] + [] + ([TOY_EMPTY] + [] + []) == [TOY_EMPTY, TOY_EMPTY];
  }

  lemma ToyResultIsThere()
    ensures AllThere(Toy(), TOY_STORE, TOY_SCOPE, TOY_RESULT)
    ensures ActionReady(Toy(), TOY_STORE, TOY_SCOPE, EMPTY_SHA256)
  {
    ToyStoreIsSound();
    hide ContentOf;
    assert ResultDigests(TOY_RESULT).value == [];
    ToyTreeDigests();
    var all := GatherFirst(Toy(), TOY_STORE, TOY_SCOPE, TOY_RESULT, 1);
    assert GatherFirst(Toy(), TOY_STORE, TOY_SCOPE, TOY_RESULT, 0) == ResultDigests(TOY_RESULT);
    assert all.Some? && all.value == [TOY_EMPTY, TOY_EMPTY];
  }

  lemma {:induction false} NatLength(n: nat)
    ensures |EncodeNat(n)| == n + 1
  {
    if n == 0 {
    } else {
      NatLength(n - 1);
    }
  }

  lemma {:induction false} CharsLength(s: string)
    ensures |EncodeChars(s)| <= 1 + |s| * 0x11_0002
  {
    if s == "" {
    } else {
      NatLength(s[0] as int);
      CharsLength(s[1..]);
    }
  }

  lemma ToyResultIsSmall()
    ensures |Toy().encodeResult(TOY_RESULT)| <= MAX_DECOMPRESSED_BLOB_SIZE
  {
    CharsLength(EMPTY_SHA256);
    hide EncodeChars;
    var entry := EncodeEntry(Some(TOY_EMPTY), []);
    assert |entry| <= 100_000_000;
    assert EncodeDirectories([]) == [0];
    assert EncodeDirectories(TOY_RESULT.outputDirectories) == [1] + (entry + EncodeDirectories([]));
  }

  lemma UpdateOfRecordable(p: Primitives, digest: Digest, r: ActionResult, store: Store)
    requires Lawful(p) && StoreOk(p, store) && Recordable(p, store, TOY_SCOPE, digest.hash, r)
    ensures RunAlone(p, UpdateResult("", 0, Some(digest), Some(r)), store, false).0 == Cached(r)
  {
    hide Lawful, StoreOk, Recordable, RunAlone, GatherFirst, EmptyIfMet, Canonical;
    UpdateAcceptedExactlyWhenRecordable(p, "", 0, digest, r, store);
  }

  /** Under the toy primitives an update of the empty action succeeds over a store that holds the
      empty blob, so the statements about recorded results are not empty. */
  lemma UpdatesCanSucceed()
    ensures StoreOk(Toy(), TOY_STORE)
    ensures RunAlone(Toy(), UpdateResult("", 0, Some(TOY_EMPTY), Some(TOY_RESULT)), TOY_STORE, false).0 ==
            Cached(TOY_RESULT)
  {
    AssumptionsAreConsistent({});
    ToyStoreIsSound();
    ToyResultIsThere();
    ToyResultIsSmall();
    hide Toy, Lawful, StoreOk, AllThere, ActionReady, RunAlone;
    UpdateOfRecordable(Toy(), TOY_EMPTY, TOY_RESULT, TOY_STORE);
  }
}
