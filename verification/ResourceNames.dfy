/** ByteStream resource names: the parser, a printer for what it returns, and the blob key
    a name resolves to. */
module ResourceNames {
  import opened Wrappers
  import opened BlobStore
  import Digests

  datatype ParseError = InvalidShape | InvalidSize | NegativeSize
  datatype Compression = Plain | Named(name: string)

  datatype Resource = Resource(
    instance: string,
    uploadId: Option<string>,
    algorithm: Option<string>,
    hash: string,
    expectedSize: Int64,
    compression: Compression)

  // ----- Segments ----------------------------------------------------------

  predicate NoSlash(s: string) {
    '/' !in s
  }

  predicate NoSlashes(parts: seq<string>) {
    forall i | 0 <= i < |parts| :: NoSlash(parts[i])
  }

  function Join(parts: seq<string>): string {
    if parts == [] then ""
    else if |parts| == 1 then parts[0]
    else parts[0] + "/" + Join(parts[1..])
  }

  function Split(s: string): (parts: seq<string>)
    ensures |parts| >= 1 && NoSlashes(parts)
  {
    if s == "" then [""]
    else
      var rest := Split(s[1..]);
      if s[0] == '/' then [""] + rest else [[s[0]] + rest[0]] + rest[1..]
  }

  lemma {:induction false} SplitFirst(a: string, rest: string)
    requires NoSlash(a)
    ensures Split(a) == [a]
    ensures Split(a + "/" + rest) == [a] + Split(rest)
  {
    var s := a + "/" + rest;
    if a == "" {
      assert s[0] == '/' && s[1..] == rest;
    } else {
      SplitFirst(a[1..], rest);
      assert [a[0]] + a[1..] == a;
      assert s[0] == a[0] && s[1..] == a[1..] + "/" + rest;
    }
  }

  lemma {:induction false} SplitJoin(parts: seq<string>)
    requires parts != [] && NoSlashes(parts)
    ensures Split(Join(parts)) == parts
  {
    assert NoSlash(parts[0]);
    if |parts| == 1 {
      SplitFirst(parts[0], "");
    } else {
      SplitFirst(parts[0], Join(parts[1..]));
      SplitJoin(parts[1..]);
    }
  }

  lemma {:induction false} JoinSplit(s: string)
    ensures Join(Split(s)) == s
  {
    if s == "" {
    } else {
      JoinSplit(s[1..]);
      var rest := Split(s[1..]);
      if s[0] == '/' {
        assert Split(s)[1..] == rest;
      } else {
        assert Split(s)[1..] == rest[1..];
      }
    }
  }

  // ----- Sizes -------------------------------------------------------------

  predicate IsDigit(c: char) {
    '0' <= c <= '9'
  }

  predicate AllDigits(s: string) {
    forall i | 0 <= i < |s| :: IsDigit(s[i])
  }

  function DigitsValue(s: string): nat
    requires AllDigits(s)
  {
    if s == "" then 0 else DigitsValue(s[..|s| - 1]) * 10 + (s[|s| - 1] as int - '0' as int)
  }

  /** `str::parse::<i64>`: an optional sign, at least one digit, no overflow. */
  function ParseInt64(s: string): Option<Int64> {
    var digits := if s != "" && (s[0] == '-' || s[0] == '+') then s[1..] else s;
    if digits == "" || !AllDigits(digits) then None
    else
      var value: int := if s[0] == '-' then 0 - DigitsValue(digits) else DigitsValue(digits);
      if -I64_MAX - 1 <= value <= I64_MAX then Some(value) else None
  }

  function ToDecimal(n: nat): (s: string)
    ensures s != "" && AllDigits(s) && DigitsValue(s) == n
  {
    var digit := [('0' as int + n % 10) as char];
    if n < 10 then digit
    else
      var rest := ToDecimal(n / 10);
      assert (rest + digit)[..|rest + digit| - 1] == rest;
      rest + digit
  }

  lemma DecimalRoundTrip(n: Int64)
    requires n >= 0
    ensures ParseInt64(ToDecimal(n)) == Some(n) && NoSlash(ToDecimal(n))
  {
    var s := ToDecimal(n);
    assert IsDigit(s[0]);
    assert forall i | 0 <= i < |s| :: IsDigit(s[i]) && s[i] != '/';
  }

  // ----- Parser ------------------------------------------------------------

  predicate IsMarker(part: string) {
    part == "blobs" || part == "compressed-blobs"
  }

  /** The first marker's index, or the number of parts when there is none. */
  function MarkerIndex(parts: seq<string>): (i: nat)
    ensures i <= |parts|
    ensures forall j | 0 <= j < i :: !IsMarker(parts[j])
    ensures i < |parts| ==> IsMarker(parts[i])
  {
    if parts == [] || IsMarker(parts[0]) then 0 else 1 + MarkerIndex(parts[1..])
  }

  /** The prefix ends in `uploads/{upload_id}`. */
  predicate EndsInUpload(prefix: seq<string>) {
    |prefix| >= 2 && prefix[|prefix| - 2] == "uploads" && prefix[|prefix| - 1] != ""
  }

  function ParsePrefix(prefix: seq<string>): (string, Option<string>) {
    if EndsInUpload(prefix) then (Join(prefix[..|prefix| - 2]), Some(prefix[|prefix| - 1]))
    else (Join(prefix), None)
  }

  function ParseSuffix(instance: string, uploadId: Option<string>, marker: string,
          suffix: seq<string>): Result<Resource, ParseError> {
    if marker == "blobs" then ParseDigest(instance, uploadId, Plain, suffix)
    else if suffix == [] || suffix[0] == "" then Failure(InvalidShape)
    else ParseDigest(instance, uploadId, Named(suffix[0]), suffix[1..])
  }

  function Parse(name: string): Result<Resource, ParseError> {
    var parts := Split(name);
    var marker := MarkerIndex(parts);
    if marker == |parts| then Failure(InvalidShape)
    else
      var (instance, uploadId) := ParsePrefix(parts[..marker]);
      ParseSuffix(instance, uploadId, parts[marker], parts[marker + 1..])
  }

  function ParseDigest(instance: string, uploadId: Option<string>, compression: Compression,
          parts: seq<string>): Result<Resource, ParseError> {
    if |parts| >= 3 && Digests.AlgorithmFromName(parts[0]).Some? then
      ParseHashAndSize(instance, uploadId, compression, Some(parts[0]), parts[1], parts[2])
    else if |parts| >= 2 then
      ParseHashAndSize(instance, uploadId, compression, None, parts[0], parts[1])
    else Failure(InvalidShape)
  }

  function ParseHashAndSize(instance: string, uploadId: Option<string>, compression: Compression,
                            algorithm: Option<string>, hash: string, size: string): Result<Resource, ParseError> {
    if hash == "" then Failure(InvalidShape)
    else match ParseInt64(size)
      case None => Failure(InvalidSize)
      case Some(n) =>
        if n < 0 then Failure(NegativeSize) else Success(Resource(instance, uploadId, algorithm, hash, n, compression))
  }

  // ----- Printer -----------------------------------------------------------

  function InstanceParts(instance: string): seq<string> {
    if instance == "" then [] else Split(instance)
  }

  function PrefixParts(r: Resource): seq<string> {
    InstanceParts(r.instance) + (if r.uploadId.Some? then ["uploads", r.uploadId.value] else [])
  }

  function MarkerParts(r: Resource): seq<string> {
    match r.compression
    case Plain => ["blobs"]
    case Named(name) => ["compressed-blobs", name]
  }

  function DigestParts(r: Resource): seq<string>
    requires r.expectedSize >= 0
  {
    (if r.algorithm.Some? then [r.algorithm.value] else []) + [r.hash, ToDecimal(r.expectedSize)]
  }

  /** `{instance}[/uploads/{id}]/blobs/...`, followed by any metadata segments. */
  function Print(r: Resource, metadata: seq<string>): string
    requires r.expectedSize >= 0
  {
    Join(PrefixParts(r) + MarkerParts(r) + DigestParts(r) + metadata)
  }

  /** No segment is a marker, and only a given upload id reads as one. */
  predicate WellFormedPrefix(instance: string, uploadId: Option<string>) {
    && (forall i | 0 <= i < |InstanceParts(instance)| :: !IsMarker(InstanceParts(instance)[i]))
    && (uploadId.None? ==> !EndsInUpload(InstanceParts(instance)))
    && (uploadId.Some? ==> uploadId.value != "" && NoSlash(uploadId.value) && !IsMarker(uploadId.value))
  }

  /** The resources that have a name. */
  predicate WellFormedResource(r: Resource) {
    && WellFormedPrefix(r.instance, r.uploadId)
    && (r.algorithm.Some? ==> r.algorithm.value == "sha256")
    && r.hash != "" && NoSlash(r.hash)
    && r.expectedSize >= 0
    && (r.compression.Named? ==> r.compression.name != "" && NoSlash(r.compression.name))
  }

  lemma {:induction false} MarkerAfter(prefix: seq<string>, rest: seq<string>)
    requires forall i | 0 <= i < |prefix| :: !IsMarker(prefix[i])
    requires rest != [] && IsMarker(rest[0])
    ensures MarkerIndex(prefix + rest) == |prefix|
  {
    if prefix == [] {
      assert prefix + rest == rest;
    } else {
      MarkerAfter(prefix[1..], rest);
      assert (prefix + rest)[1..] == prefix[1..] + rest;
    }
  }

  lemma PartsHaveNoSlash(r: Resource)
    requires WellFormedResource(r)
    ensures NoSlashes(PrefixParts(r)) && NoSlashes(MarkerParts(r)) && NoSlashes(DigestParts(r))
  {
    hide Split;
    DecimalRoundTrip(r.expectedSize);
    hide ToDecimal;
  }

  lemma ParseSplits(prefix: seq<string>, rest: seq<string>)
    requires forall i | 0 <= i < |prefix| :: !IsMarker(prefix[i])
    requires rest != [] && IsMarker(rest[0]) && NoSlashes(prefix + rest)
    ensures var (instance, uploadId) := ParsePrefix(prefix);
            Parse(Join(prefix + rest)) == ParseSuffix(instance, uploadId, rest[0], rest[1..])
  {
    hide ParsePrefix, ParseSuffix, IsMarker, Join;
    var parts := prefix + rest;
    SplitJoin(parts);
    MarkerAfter(prefix, rest);
    assert parts[..|prefix|] == prefix && parts[|prefix|] == rest[0] && parts[|prefix| + 1..] == rest[1..];
  }

  lemma InstanceJoin(instance: string)
    ensures Join(InstanceParts(instance)) == instance
  {
    JoinSplit(instance);
  }

  lemma PrintedPrefix(r: Resource)
    requires WellFormedResource(r)
    ensures var prefix := PrefixParts(r);
            && (forall i | 0 <= i < |prefix| :: !IsMarker(prefix[i]))
            && ParsePrefix(prefix) == (r.instance, r.uploadId)
  {
    InstanceJoin(r.instance);
    var prefix := PrefixParts(r);
    if r.uploadId.Some? {
      assert prefix[..|prefix| - 2] == InstanceParts(r.instance);
    } else {
      assert prefix == InstanceParts(r.instance);
    }
  }

  lemma PrintedSuffix(r: Resource, tail: seq<string>)
    requires WellFormedResource(r)
    ensures ParseSuffix(r.instance, r.uploadId, MarkerParts(r)[0], (MarkerParts(r) + tail)[1..]) ==
            ParseDigest(r.instance, r.uploadId, r.compression, tail)
  {
    var suffix := (MarkerParts(r) + tail)[1..];
    match r.compression
    case Plain =>
      assert suffix == tail;
    case Named(name) =>
      assert suffix[0] == name && suffix[1..] == tail;
  }

  lemma PrintedDigest(r: Resource, metadata: seq<string>)
    requires WellFormedResource(r)
    ensures ParseDigest(r.instance, r.uploadId, r.compression, DigestParts(r) + metadata) == Success(r)
            <==> (metadata == [] || r.algorithm.Some? || r.hash != "sha256")
  {
    DecimalRoundTrip(r.expectedSize);
    var parts := DigestParts(r) + metadata;
    if r.algorithm.Some? {
      assert parts[0] == "sha256" && parts[1] == r.hash && parts[2] == ToDecimal(r.expectedSize);
    } else {
      assert parts[0] == r.hash && parts[1] == ToDecimal(r.expectedSize);
    }
  }

  /** Printing and parsing again gives the resource back, whatever metadata follows, except
      when the omitted algorithm lets a hash spelled `sha256` pass for the algorithm. */
  lemma RoundTrip(r: Resource, metadata: seq<string>)
    requires WellFormedResource(r) && NoSlashes(metadata)
    ensures Parse(Print(r, metadata)) == Success(r)
            <==> (metadata == [] || r.algorithm.Some? || r.hash != "sha256")
  {
    hide WellFormedPrefix, PrefixParts, DigestParts, ParsePrefix, ParseSuffix, ParseDigest, Parse, Join;
    PartsHaveNoSlash(r);
    PrintedPrefix(r);
    var prefix, tail := PrefixParts(r), DigestParts(r) + metadata;
    var rest := MarkerParts(r) + tail;
    assert prefix + rest == PrefixParts(r) + MarkerParts(r) + DigestParts(r) + metadata;
    ParseSplits(prefix, rest);
    PrintedSuffix(r, tail);
    PrintedDigest(r, metadata);
  }

  lemma ParsedInstance(prefix: seq<string>)
    requires NoSlashes(prefix)
    ensures var parts := InstanceParts(Join(prefix));
            parts == prefix || (prefix == [""] && parts == [])
  {
    if prefix != [] {
      SplitJoin(prefix);
      if Join(prefix) == "" {
        assert Split("") == [""];
      }
    }
  }

  lemma ParsedPrefix(prefix: seq<string>)
    requires NoSlashes(prefix) && forall i | 0 <= i < |prefix| :: !IsMarker(prefix[i])
    ensures var (instance, uploadId) := ParsePrefix(prefix);
            WellFormedPrefix(instance, uploadId)
  {
    if EndsInUpload(prefix) {
      ParsedInstance(prefix[..|prefix| - 2]);
    } else {
      ParsedInstance(prefix);
    }
  }

  lemma ParsedDigest(instance: string, uploadId: Option<string>, compression: Compression, parts: seq<string>)
    requires NoSlashes(parts)
    requires ParseDigest(instance, uploadId, compression, parts).Success?
    ensures var r := ParseDigest(instance, uploadId, compression, parts).value;
            && r.instance == instance && r.uploadId == uploadId && r.compression == compression
            && (r.algorithm.Some? ==> r.algorithm.value == "sha256")
            && r.hash != "" && NoSlash(r.hash) && r.expectedSize >= 0
  {
  }

  lemma ParsedIsWellFormed(name: string)
    requires Parse(name).Success?
    ensures WellFormedResource(Parse(name).value)
  {
    var parts := Split(name);
    var marker := MarkerIndex(parts);
    ParsedPrefix(parts[..marker]);
    var (instance, uploadId) := ParsePrefix(parts[..marker]);
    var suffix := parts[marker + 1..];
    if parts[marker] == "blobs" {
      ParsedDigest(instance, uploadId, Plain, suffix);
    } else {
      assert NoSlash(suffix[0]);
      ParsedDigest(instance, uploadId, Named(suffix[0]), suffix[1..]);
    }
  }

  /** A resource has a name exactly when it is well formed. */
  lemma NamedExactlyWhenWellFormed(r: Resource)
    requires r.expectedSize >= 0
    ensures WellFormedResource(r) <==> exists name :: Parse(name) == Success(r)
    ensures WellFormedResource(r) <==> Parse(Print(r, [])) == Success(r)
  {
    if WellFormedResource(r) {
      RoundTrip(r, []);
    }
    if name :| Parse(name) == Success(r) {
      ParsedIsWellFormed(name);
    }
  }

  function Normalize(name: string): (r: Result<string, ParseError>) {
    var parsed :- Parse(name);
    assert parsed.expectedSize >= 0 by { ParsedIsWellFormed(name); }
    Success(Print(parsed, []))
  }

  /** Every accepted spelling -- leading slash, signed or padded size, extra segments -- has a
      normal form that is accepted, means the same, and is its own normal form. */
  lemma NormalizationIsIdempotent(name: string)
    requires Parse(name).Success?
    ensures Normalize(name).Success?
    ensures var normal := Normalize(name).value;
            Parse(normal) == Parse(name) && Normalize(normal) == Success(normal)
  {
    ParsedIsWellFormed(name);
    RoundTrip(Parse(name).value, []);
  }

  // ----- Which spellings are accepted --------------------------------------

  function Pow10(n: nat): nat {
    if n == 0 then 1 else 10 * Pow10(n - 1)
  }

  lemma TimesTen(x: nat, y: nat, v: nat, d: nat)
    ensures (x * y + v) * 10 + d == x * (10 * y) + (v * 10 + d)
  {
  }

  lemma DigitsSplit(s: string)
    requires s != "" && AllDigits(s)
    ensures var last := |s| - 1;
            && AllDigits(s[..last]) && IsDigit(s[last])
            && DigitsValue(s) == DigitsValue(s[..last]) * 10 + (s[last] as int - '0' as int)
  {
  }

  /** The value of digits is positional, in base ten. */
  lemma {:induction false} DigitsValueShifts(a: string, b: string)
    requires AllDigits(a) && AllDigits(b)
    ensures AllDigits(a + b) && DigitsValue(a + b) == DigitsValue(a) * Pow10(|b|) + DigitsValue(b)
    decreases |b|
  {
    if b == "" {
      assert a + b == a;
    } else {
      var init, last := b[..|b| - 1], b[|b| - 1];
      assert (a + b)[..|a + b| - 1] == a + init && (a + b)[|a + b| - 1] == last;
      assert Pow10(|b|) == 10 * Pow10(|init|);
      hide DigitsValue, Pow10;
      DigitsSplit(b);
      DigitsSplit(a + b);
      DigitsValueShifts(a, init);
      TimesTen(DigitsValue(a), Pow10(|init|), DigitsValue(init), last as int - '0' as int);
    }
  }

  /** A decimal integer as the client may spell it: a sign or none, then digits, however many. */
  predicate Spells(s: string, n: int) {
    || (s != "" && AllDigits(s) && DigitsValue(s) == n)
    || (|s| > 1 && s[0] == '+' && AllDigits(s[1..]) && DigitsValue(s[1..]) == n)
    || (|s| > 1 && s[0] == '-' && AllDigits(s[1..]) && DigitsValue(s[1..]) == -n)
  }

  lemma ParsedExactlyWhenSpelled(s: string, n: Int64)
    ensures ParseInt64(s) == Some(n) <==> Spells(s, n)
  {
    if s != "" && (s[0] == '-' || s[0] == '+') {
      assert !IsDigit(s[0]) && !AllDigits(s);
    }
  }

  function AlgorithmParts(r: Resource): seq<string> {
    if r.algorithm.Some? then [r.algorithm.value] else []
  }

  /** These segments spell this instance and upload id. */
  predicate PrefixSpells(prefix: seq<string>, instance: string, uploadId: Option<string>) {
    && (forall i | 0 <= i < |prefix| :: prefix[i] != "blobs" && prefix[i] != "compressed-blobs")
    && (if |prefix| >= 2 && prefix[|prefix| - 2] == "uploads" && prefix[|prefix| - 1] != ""
        then instance == Join(prefix[..|prefix| - 2]) && uploadId == Some(prefix[|prefix| - 1])
        else instance == Join(prefix) && uploadId == None)
  }

  /** These segments spell this hash and size, with or without the algorithm, before any metadata. */
  predicate TailSpells(tail: seq<string>, r: Resource, size: string, metadata: seq<string>) {
    && tail == AlgorithmParts(r) + [r.hash, size] + metadata
    && (r.algorithm.Some? ==> r.algorithm.value == "sha256")
    && (r.algorithm.None? && metadata != [] ==> r.hash != "sha256")
    && r.hash != "" && Spells(size, r.expectedSize) && r.expectedSize >= 0
  }

  /** These segments are an accepted spelling of this resource. */
  predicate Spelling(parts: seq<string>, r: Resource, prefix: seq<string>, tail: seq<string>, size: string,
          metadata: seq<string>) {
    && parts == prefix + (if r.compression.Plain? then ["blobs"] else ["compressed-blobs", r.compression.name]) + tail
    && (r.compression.Named? ==> r.compression.name != "")
    && PrefixSpells(prefix, r.instance, r.uploadId) && TailSpells(tail, r, size, metadata)
  }

  lemma SpellingParses(parts: seq<string>, r: Resource, prefix: seq<string>, tail: seq<string>, size: string,
          metadata: seq<string>)
    requires NoSlashes(parts) && Spelling(parts, r, prefix, tail, size, metadata)
    ensures Parse(Join(parts)) == Success(r)
  {
    assert ParsePrefix(prefix) == (r.instance, r.uploadId);
    TailParses(r, tail, size, metadata);
    PrefixHasNoMarker(prefix, r.instance, r.uploadId);
    hide PrefixSpells, TailSpells, ParsePrefix, ParseDigest, Parse, Join;
    if r.compression.Plain? {
      var rest := ["blobs"] + tail;
      assert parts == prefix + rest by { Regroup(prefix, ["blobs"], tail); }
      ParseSplits(prefix, rest);
      assert rest[1..] == tail;
    } else {
      var name := r.compression.name;
      var rest := ["compressed-blobs"] + ([name] + tail);
      assert ["compressed-blobs", name] + tail == rest;
      assert parts == prefix + rest by { Regroup(prefix, ["compressed-blobs", name], tail); }
      ParseSplits(prefix, rest);
      assert rest[1..] == [name] + tail && ([name] + tail)[1..] == tail;
    }
  }

  lemma Regroup(a: seq<string>, b: seq<string>, c: seq<string>)
    ensures a + b + c == a + (b + c)
  {
  }

  lemma PrefixHasNoMarker(prefix: seq<string>, instance: string, uploadId: Option<string>)
    requires PrefixSpells(prefix, instance, uploadId)
    ensures forall i | 0 <= i < |prefix| :: !IsMarker(prefix[i])
  {
  }

  lemma TailParses(r: Resource, tail: seq<string>, size: string, metadata: seq<string>)
    requires TailSpells(tail, r, size, metadata)
    ensures ParseDigest(r.instance, r.uploadId, r.compression, tail) == Success(r)
  {
    ParsedExactlyWhenSpelled(size, r.expectedSize);
    hide Spells, ParseInt64;
    if r.algorithm.Some? {
      assert tail[0] == "sha256" && tail[1] == r.hash && tail[2] == size;
    } else {
      assert tail[0] == r.hash && tail[1] == size;
    }
  }

  lemma ParsedTail(instance: string, uploadId: Option<string>, compression: Compression, tail: seq<string>)
    returns (size: string, metadata: seq<string>)
    requires ParseDigest(instance, uploadId, compression, tail).Success?
    ensures var r := ParseDigest(instance, uploadId, compression, tail).value;
            && r.instance == instance && r.uploadId == uploadId && r.compression == compression
            && TailSpells(tail, r, size, metadata)
  {
    hide Spells, ParseInt64;
    if |tail| >= 3 && tail[0] == "sha256" {
      size, metadata := tail[2], tail[3..];
      assert tail == [tail[0]] + [tail[1], tail[2]] + tail[3..];
    } else {
      size, metadata := tail[1], tail[2..];
      assert tail == [] + [tail[0], tail[1]] + tail[2..];
    }
    ParsedExactlyWhenSpelled(size, ParseDigest(instance, uploadId, compression, tail).value.expectedSize);
  }

  lemma SuffixSpells(prefix: seq<string>, instance: string, uploadId: Option<string>, marker: string,
          suffix: seq<string>, r: Resource)
    returns (tail: seq<string>, size: string, metadata: seq<string>)
    requires IsMarker(marker) && PrefixSpells(prefix, instance, uploadId)
    requires ParseSuffix(instance, uploadId, marker, suffix) == Success(r)
    ensures Spelling(prefix + [marker] + suffix, r, prefix, tail, size, metadata)
  {
    hide PrefixSpells, TailSpells, ParseDigest;
    if marker == "blobs" {
      tail := suffix;
      size, metadata := ParsedTail(instance, uploadId, Plain, tail);
    } else {
      tail := suffix[1..];
      size, metadata := ParsedTail(instance, uploadId, Named(suffix[0]), tail);
      assert prefix + [marker] + suffix == prefix + ["compressed-blobs", suffix[0]] + tail;
    }
  }

  lemma ParsedPrefixSpells(prefix: seq<string>)
    requires forall i | 0 <= i < |prefix| :: !IsMarker(prefix[i])
    ensures var (instance, uploadId) := ParsePrefix(prefix);
            PrefixSpells(prefix, instance, uploadId)
  {
    hide Join;
  }

  lemma ParsedIsSpelling(name: string)
    returns (prefix: seq<string>, tail: seq<string>, size: string, metadata: seq<string>)
    requires Parse(name).Success?
    ensures Spelling(Split(name), Parse(name).value, prefix, tail, size, metadata)
  {
    hide PrefixSpells, ParsePrefix, ParseSuffix, MarkerIndex, Split, Spelling, IsMarker;
    var parts := Split(name);
    var marker := MarkerIndex(parts);
    prefix := parts[..marker];
    var suffix := parts[marker + 1..];
    assert parts == prefix + [parts[marker]] + suffix;
    ParsedPrefixSpells(prefix);
    var (instance, uploadId) := ParsePrefix(prefix);
    tail, size, metadata := SuffixSpells(prefix, instance, uploadId, parts[marker], suffix, Parse(name).value);
  }

  /** The parser accepts exactly the spellings of the grammar, each as the resource it spells. */
  lemma AcceptedExactlyWhenSpelled(name: string, r: Resource)
    ensures Parse(name) == Success(r) <==>
            exists prefix, tail, size, metadata :: Spelling(Split(name), r, prefix, tail, size, metadata)
  {
    hide Spelling, Parse;
    if Parse(name) == Success(r) {
      var prefix, tail, size, metadata := ParsedIsSpelling(name);
    }
    if prefix, tail, size, metadata :| Spelling(Split(name), r, prefix, tail, size, metadata) {
      JoinSplit(name);
      SpellingParses(Split(name), r, prefix, tail, size, metadata);
    }
  }

  lemma SizesInUse()
    ensures Spells("12", 12) && Spells("+012", 12) && Spells("-0", 0)
  {
    assert DigitsValue("1") == 1 && "12"[..1] == "1" && DigitsValue("12") == 12;
    assert DigitsValue("0") == 0 && "01"[..1] == "0" && DigitsValue("01") == 1;
    assert "+012"[1..] == "012" && "012"[..2] == "01" && DigitsValue("012") == 12;
    assert "-0"[1..] == "0";
  }

  /** Three names as clients write them. */
  lemma PlainNameInUse()
    ensures Parse(Join(["test", "blobs", "sha256", "abc123", "12"])) ==
            Success(Resource("test", None, Some("sha256"), "abc123", 12, Plain))
  {
    SizesInUse();
    var r := Resource("test", None, Some("sha256"), "abc123", 12, Plain);
    var prefix, tail, size := ["test"], ["sha256", "abc123", "12"], "12";
    hide Spells, Parse;
    SpellingParses(["test", "blobs", "sha256", "abc123", "12"], r, prefix, tail, size, []);
  }

  lemma UploadNameInUse()
    ensures Parse(Join(["test", "uploads", "upload-123", "blobs", "abc123", "12"])) ==
            Success(Resource("test", Some("upload-123"), None, "abc123", 12, Plain))
  {
    SizesInUse();
    var r := Resource("test", Some("upload-123"), None, "abc123", 12, Plain);
    var prefix, tail, size := ["test", "uploads", "upload-123"], ["abc123", "12"], "12";
    assert prefix[..1] == ["test"];
    hide Spells, Parse;
    SpellingParses(["test", "uploads", "upload-123", "blobs", "abc123", "12"], r, prefix, tail, size, []);
  }

  lemma CompressedNameInUse()
    ensures Parse(Join(["a", "compressed-blobs", "zstd", "abc123", "+012", "any", "metadata"])) ==
            Success(Resource("a", None, None, "abc123", 12, Named("zstd")))
  {
    SizesInUse();
    var r := Resource("a", None, None, "abc123", 12, Named("zstd"));
    var prefix, size, metadata := ["a"], "+012", ["any", "metadata"];
    var tail := ["abc123", "+012", "any", "metadata"];
    hide Spells, Parse;
    SpellingParses(["a", "compressed-blobs", "zstd", "abc123", "+012", "any", "metadata"],
                   r, prefix, tail, size, metadata);
  }

  // ----- Keys --------------------------------------------------------------

  /** None stands for the invalid-argument error of an unknown algorithm name. */
  function ResolveBlobKey(r: Resource): Option<BlobKey> {
    var algorithm := if r.algorithm.Some? then Digests.AlgorithmFromName(r.algorithm.value) else Some(Sha256);
    match algorithm
    case None => None
    case Some(a) => Some(BlobKey(r.instance, a, r.hash, ContentAddressableStorage))
  }

  /** The instance names the Remote Execution API allows: no segment is a reserved word. */
  predicate LegalInstance(instance: string) {
    forall i | 0 <= i < |Split(instance)| ::
      Split(instance)[i] !in {"blobs", "uploads", "actions", "actionResults",
                             "operations", "capabilities", "compressed-blobs"}
  }

  /** What is written under an upload name is found under every read name of the same blob. */
  lemma ReadAndUploadNamesAgree(read: Resource, upload: Resource, readMetadata: seq<string>,
          uploadMetadata: seq<string>)
    requires LegalInstance(read.instance) && read.instance == upload.instance
    requires read.hash == upload.hash && read.hash != "" && NoSlash(read.hash)
    requires readMetadata == [] || read.algorithm.Some? || read.hash != "sha256"
    requires uploadMetadata == [] || upload.algorithm.Some? || upload.hash != "sha256"
    requires read.expectedSize == upload.expectedSize >= 0
    requires read.uploadId.None? && upload.uploadId.Some?
    requires upload.uploadId.value != "" && NoSlash(upload.uploadId.value) && !IsMarker(upload.uploadId.value)
    requires forall r | r in {read, upload} :: r.algorithm in {None, Some("sha256")}
    requires forall r | r in {read, upload} :: r.compression.Named? ==>
               r.compression.name != "" && NoSlash(r.compression.name)
    requires NoSlashes(readMetadata) && NoSlashes(uploadMetadata)
    ensures var fromRead, fromUpload := Parse(Print(read, readMetadata)), Parse(Print(upload, uploadMetadata));
            && fromRead == Success(read) && fromUpload == Success(upload)
            && ResolveBlobKey(read) == ResolveBlobKey(upload)
            && ResolveBlobKey(read) == Some(BlobKey(read.instance, Sha256, read.hash, ContentAddressableStorage))
  {
    var parts := InstanceParts(read.instance);
    assert forall i | 0 <= i < |parts| ::
           parts[i] == Split(read.instance)[i] && parts[i] != "uploads" && !IsMarker(parts[i]);
    assert read in {read, upload} && upload in {read, upload};
    RoundTrip(read, readMetadata);
    RoundTrip(upload, uploadMetadata);
  }
}
