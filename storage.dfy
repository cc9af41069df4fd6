/**
 * Content addressing and the object store: the `{yyyymm}/{hash}.{ext}` and
 * `{yyyymm}/{hash}_thumb.{ext}` paths, the 16-character lowercase-hex hash
 * prefix of a digest, the content type served for a path, public URLs, and the
 * bucket as a map from path to stored object.
 */
module Storage {
  import opened JsString
  import opened Types

  type Month = m: int | 1 <= m <= 12 witness 1

  /** What one `new Date()` call reports: the full year and the month, counted from 1. */
  datatype Clock = Clock(year: nat, month: Month)

  /** `${getFullYear()}${String(getMonth() + 1).padStart(2, '0')}` */
  function YearMonth(c: Clock): string {
    Decimal(c.year) + PadStart(Decimal(c.month), 2, '0')
  }

  /** `generateStoragePath`: the month directory, then the hash and the extension. */
  function StoragePath(hash: string, ext: string, c: Clock): (p: string)
    ensures YearMonth(c) + "/" <= p
    ensures p[|YearMonth(c)| + 1..] == hash + "." + ext
  {
    YearMonth(c) + "/" + hash + "." + ext
  }

  /** `generateThumbnailPath`: the storage path of the name `{hash}_thumb`. */
  function ThumbnailPath(hash: string, ext: string, c: Clock): (p: string)
    ensures p == StoragePath(hash + "_thumb", ext, c)
  {
    YearMonth(c) + "/" + hash + "_thumb." + ext
  }

  lemma {:induction false} DecimalLength(n: nat)
    ensures n < 10 ==> |Decimal(n)| == 1
    ensures 10 <= n < 100 ==> |Decimal(n)| == 2
    ensures 100 <= n < 1000 ==> |Decimal(n)| == 3
    ensures 1000 <= n < 10000 ==> |Decimal(n)| == 4
    decreases n
  {
    if n >= 10 {
      DivisionBounds(n, 10);
      DecimalLength(n / 10);
    }
  }

  /**
   * For a four-digit year the prefix is six decimal digits: the year, then the
   * month zero-padded to two digits.
   */
  lemma YearMonthShape(c: Clock)
    requires 1000 <= c.year <= 9999
    ensures YearMonth(c) == Decimal(c.year) + (if c.month < 10 then "0" + Decimal(c.month) else Decimal(c.month))
    ensures |YearMonth(c)| == 6
    ensures forall i :: 0 <= i < 6 ==> IsDigit(YearMonth(c)[i])
  {
    DecimalLength(c.year);
    DecimalLength(c.month);
    var m := Decimal(c.month);
    if c.month < 10 {
      assert PadStart(m, 2, '0') == "0" + m;
    }
  }

  /** The thumbnail path is the storage path with `_thumb` inserted before the last `.`. */
  lemma ThumbnailBesideStoragePath(hash: string, ext: string, c: Clock)
    ensures var p := StoragePath(hash, ext, c);
      ThumbnailPath(hash, ext, c) == p[..|p| - |ext| - 1] + "_thumb" + p[|p| - |ext| - 1..]
  {
    var a := YearMonth(c) + "/" + hash;
    assert StoragePath(hash, ext, c) == a + "." + ext;
    assert ThumbnailPath(hash, ext, c) == a + "_thumb." + ext;
    ThumbSplice(a, ext);
  }

  lemma ThumbSplice(a: string, ext: string)
    ensures var p := a + "." + ext;
      a + "_thumb." + ext == p[..|a|] + "_thumb" + p[|a|..]
  {
    var p := a + "." + ext;
    assert p[..|a|] == a;
    assert p[|a|..] == "." + ext;
  }

  // ---------------------------------------------------------------- the content hash

  /** `b.toString(16).padStart(2, '0')` */
  function HexByte(b: Byte): string {
    PadStart(ToRadix(b as nat, 16), 2, '0')
  }

  /** The two lowercase hex digits of a byte, high nibble first. */
  function HexPair(b: Byte): (s: string)
    ensures |s| == 2 && IsLowerHex(s)
  {
    RadixDigitIn(b as nat / 16, 16);
    RadixDigitIn(b as nat % 16, 16);
    [RadixDigit(b as nat / 16), RadixDigit(b as nat % 16)]
  }

  /** Each byte renders as exactly its two hex digits. */
  lemma HexByteDigits(b: Byte)
    ensures HexByte(b) == HexPair(b)
  {
    var n := b as nat;
    if n >= 16 {
      assert ToRadix(n, 16) == ToRadix(n / 16, 16) + [RadixDigit(n % 16)];
    } else {
      assert PadStart([RadixDigit(n)], 2, '0') == ['0', RadixDigit(n)];
    }
  }

  predicate IsLowerHex(s: string) {
    forall i :: 0 <= i < |s| ==> IsRadixDigit(s[i], 16)
  }

  /** The hex rendering of a digest, two characters per byte. */
  function Hex(digest: seq<Byte>): (h: string)
    ensures |h| == 2 * |digest|
    ensures IsLowerHex(h)
  {
    if digest == [] then "" else HexPair(digest[0]) + Hex(digest[1..])
  }

  /** `Hex` is the concatenation of any sequence of per-byte pairs. */
  lemma {:induction false} HexIsJoinedPairs(digest: seq<Byte>, pieces: seq<string>)
    requires |pieces| == |digest|
    requires forall i :: 0 <= i < |digest| ==> pieces[i] == HexPair(digest[i])
    ensures Hex(digest) == Join(pieces, "")
    decreases |digest|
  {
    if |digest| == 1 {
      assert Hex(digest[1..]) == "";
    } else if |digest| > 1 {
      HexIsJoinedPairs(digest[1..], pieces[1..]);
    }
  }

  /** `Hex` is what the source computes: `map(b => b.toString(16).padStart(2, '0')).join('')`. */
  lemma HexIsJoinedBytes(digest: seq<Byte>)
    ensures Hex(digest) == Join(seq(|digest|, i requires 0 <= i < |digest| => HexByte(digest[i])), "")
  {
    var pieces := seq(|digest|, i requires 0 <= i < |digest| => HexByte(digest[i]));
    forall i | 0 <= i < |digest|
      ensures pieces[i] == HexPair(digest[i])
    {
      HexByteDigits(digest[i]);
    }
    HexIsJoinedPairs(digest, pieces);
  }

  lemma {:induction false} HexAppend(a: seq<Byte>, b: seq<Byte>)
    ensures Hex(a + b) == Hex(a) + Hex(b)
    decreases |a|
  {
    if a == [] {
      assert a + b == b;
    } else {
      assert (a + b)[0] == a[0];
      assert (a + b)[1..] == a[1..] + b;
      HexAppend(a[1..], b);
      assert Hex(a + b) == HexPair(a[0]) + Hex(a[1..] + b);
      assert Hex(a) == HexPair(a[0]) + Hex(a[1..]);
    }
  }

  /** Two digests of the same length with the same hex rendering are equal. */
  lemma {:induction false} HexInjective(a: seq<Byte>, b: seq<Byte>)
    requires |a| == |b| && Hex(a) == Hex(b)
    ensures a == b
    decreases |a|
  {
    if a != [] {
      var ha, hb := Hex(a), Hex(b);
      assert ha == HexPair(a[0]) + Hex(a[1..]);
      assert hb == HexPair(b[0]) + Hex(b[1..]);
      assert ha[0] == hb[0] && ha[1] == hb[1];
      var a0, b0 := a[0] as nat, b[0] as nat;
      assert RadixDigitValue(RadixDigit(a0 / 16)) == RadixDigitValue(RadixDigit(b0 / 16));
      assert RadixDigitValue(RadixDigit(a0 % 16)) == RadixDigitValue(RadixDigit(b0 % 16));
      assert a0 == 16 * (a0 / 16) + a0 % 16;
      assert b0 == 16 * (b0 / 16) + b0 % 16;
      assert a[0] == b[0];
      assert ha[2..] == Hex(a[1..]) && hb[2..] == Hex(b[1..]);
      HexInjective(a[1..], b[1..]);
      assert a == [a[0]] + a[1..] && b == [b[0]] + b[1..];
    }
  }

  /** `generateFileHash`: the first 16 characters of the hex rendering of the digest. */
  function FileHash(digest: seq<Byte>): (h: string)
    ensures h <= Hex(digest)
    ensures |h| == if 2 * |digest| < 16 then 2 * |digest| else 16
  {
    var h := Hex(digest);
    h[..if |h| < 16 then |h| else 16]
  }

  /**
   * A digest of at least eight bytes (SHA-256 gives 32) yields sixteen lowercase
   * hex characters: the rendering of its first eight bytes.
   */
  lemma FileHashShape(digest: seq<Byte>)
    requires |digest| >= 8
    ensures FileHash(digest) == Hex(digest[..8])
    ensures |FileHash(digest)| == 16 && IsLowerHex(FileHash(digest))
  {
    HexAppend(digest[..8], digest[8..]);
    assert digest == digest[..8] + digest[8..];
  }

  /**
   * Two uploads stored under the same path in the same month agree on the
   * first eight digest bytes and on the extension: this is when a re-upload
   * overwrites an earlier blob.
   */
  lemma SamePathSameContentAddress(d1: seq<Byte>, d2: seq<Byte>, e1: string, e2: string, c: Clock)
    requires |d1| >= 8 && |d2| >= 8
    requires StoragePath(FileHash(d1), e1, c) == StoragePath(FileHash(d2), e2, c)
    ensures d1[..8] == d2[..8] && e1 == e2
  {
    FileHashShape(d1);
    FileHashShape(d2);
    var pre := YearMonth(c) + "/";
    var p1, p2 := StoragePath(FileHash(d1), e1, c), StoragePath(FileHash(d2), e2, c);
    assert p1 == pre + FileHash(d1) + "." + e1;
    assert p2 == pre + FileHash(d2) + "." + e2;
    var n := |pre|;
    assert p1[n..n + 16] == FileHash(d1);
    assert p2[n..n + 16] == FileHash(d2);
    HexInjective(d1[..8], d2[..8]);
    assert p1[n + 17..] == e1;
    assert p2[n + 17..] == e2;
  }

  /** The main blob and its thumbnail never share a path, whatever the hash and the two clock readings. */
  lemma ThumbnailNeverOverwritesMain(h: string, ext: string, c1: Clock, c2: Clock)
    ensures StoragePath(h, ext, c1) != ThumbnailPath(h, "jpg", c2)
  {
    YearMonthDigits(c1, c2);
    var p, t := StoragePath(h, ext, c1), ThumbnailPath(h, "jpg", c2);
    var a, b := YearMonth(c1), YearMonth(c2);
    assert p == a + "/" + h + "." + ext;
    assert t == b + "/" + h + "_thumb.jpg";
    if |a| == |b| {
      assert p[|a| + 1 + |h|] == '.' && t[|a| + 1 + |h|] == '_';
    } else if |a| < |b| {
      // both prefixes are digit strings, so the first '/' fixes their length
      assert p[|a|] == '/' && IsDigit(t[|a|]);
    } else {
      assert t[|b|] == '/' && IsDigit(p[|b|]);
    }
  }

  lemma YearMonthDigits(c1: Clock, c2: Clock)
    ensures forall i :: 0 <= i < |YearMonth(c1)| ==> IsDigit(YearMonth(c1)[i])
    ensures forall i :: 0 <= i < |YearMonth(c2)| ==> IsDigit(YearMonth(c2)[i])
  {
    PadDigits(Decimal(c1.month));
    PadDigits(Decimal(c2.month));
  }

  lemma PadDigits(s: string)
    requires forall i :: 0 <= i < |s| ==> IsDigit(s[i])
    ensures forall i :: 0 <= i < |PadStart(s, 2, '0')| ==> IsDigit(PadStart(s, 2, '0')[i])
  {
  }

  // ---------------------------------------------------------------- served content type and URLs

  const OctetStream: string := "application/octet-stream"

  /** The text after the last `.` of a path, lowercased (the whole path when it has no `.`). */
  function PathExtension(path: string): string {
    var pieces := Split(path, '.');
    ToLowerAscii(pieces[|pieces| - 1])
  }

  /**
   * The extension and MIME tables are plain objects, so a lookup by a name
   * they do not hold falls through to `Object.prototype`. Each of its twelve
   * members is truthy, and a string template or a header renders it as
   * these strings: a native function's source text, or the prototype itself.
   */
  const PrototypeMembers: map<string, string> := map[
    "constructor" := "function Object() { [native code] }",
    "__proto__" := "[object Object]",
    "toString" := "function toString() { [native code] }",
    "toLocaleString" := "function toLocaleString() { [native code] }",
    "valueOf" := "function valueOf() { [native code] }",
    "hasOwnProperty" := "function hasOwnProperty() { [native code] }",
    "isPrototypeOf" := "function isPrototypeOf() { [native code] }",
    "propertyIsEnumerable" := "function propertyIsEnumerable() { [native code] }",
    "__defineGetter__" := "function __defineGetter__() { [native code] }",
    "__defineSetter__" := "function __defineSetter__() { [native code] }",
    "__lookupGetter__" := "function __lookupGetter__() { [native code] }",
    "__lookupSetter__" := "function __lookupSetter__() { [native code] }"
  ]

  predicate HasCapital(s: string) {
    exists i :: 0 <= i < |s| && 'A' <= s[i] <= 'Z'
  }

  /** Ten of the twelve member names hold a capital letter. */
  lemma PrototypeCapitals()
    ensures forall k :: k in PrototypeMembers && k != "constructor" && k != "__proto__" ==> HasCapital(k)
  {
    assert "toString"[2] == 'S' && "toLocaleString"[2] == 'L' && "isPrototypeOf"[2] == 'P';
    assert "valueOf"[5] == 'O' && "hasOwnProperty"[3] == 'O' && "propertyIsEnumerable"[8] == 'I';
    assert "__defineGetter__"[8] == 'G' && "__defineSetter__"[8] == 'S';
    assert "__lookupGetter__"[8] == 'G' && "__lookupSetter__"[8] == 'S';
  }

  /**
   * The served-path lookup lowercases first, so it never finds a member
   * whose name holds a capital: what it looks up is in neither table.
   */
  lemma CapitalPrototypeNames(ext: string)
    requires ext in PrototypeMembers && ext != "constructor" && ext != "__proto__"
    ensures ToLowerAscii(ext) != ext
    ensures ToLowerAscii(ext) !in PrototypeMembers && ToLowerAscii(ext) !in ExtensionToMime
  {
    PrototypeCapitals();
    PrototypeNameLengths(ext);
    var s := ToLowerAscii(ext);
    assert !HasCapital(s);
    assert s != "constructor" && s != "__proto__";
  }

  lemma PrototypeNameLengths(ext: string)
    requires ext in PrototypeMembers && ext != "constructor" && ext != "__proto__"
    ensures 7 <= |ext| && |ext| != 9 && |ext| != 11
  {
  }

  /**
   * `getContentTypeFromPath`: the lowercased text after the last `.`, looked
   * up in the table (prototype members included), or the generic type.
   */
  function ContentTypeFromPath(path: string): (ct: string)
    ensures PathExtension(path) in PrototypeMembers ==> ct == PrototypeMembers[PathExtension(path)]
    ensures PathExtension(path) !in PrototypeMembers ==> ct == OctetStream || IsAllowedType(ct)
    ensures PathExtension(path) in ExtensionToMime ==> ct == ExtensionToMime[PathExtension(path)]
  {
    var ext := PathExtension(path);
    if ext in ExtensionToMime then ExtensionToMime[ext]
    else if ext in PrototypeMembers then PrototypeMembers[ext]
    else OctetStream
  }

  lemma LowerAsciiIdentity(s: string)
    requires forall i :: 0 <= i < |s| ==> !('A' <= s[i] <= 'Z')
    ensures ToLowerAscii(s) == s
  {
  }

  /** A path ending in `.ext`, for an extension without `.` or capitals, is served by that extension. */
  lemma ContentTypeOfExtension(a: string, ext: string)
    requires '.' !in ext
    requires forall i :: 0 <= i < |ext| ==> !('A' <= ext[i] <= 'Z')
    ensures ContentTypeFromPath(a + "." + ext)
      == if ext in ExtensionToMime then ExtensionToMime[ext]
         else if ext in PrototypeMembers then PrototypeMembers[ext]
         else OctetStream
  {
    PathExtensionOf(a, ext);
  }

  lemma PathExtensionOf(a: string, ext: string)
    requires '.' !in ext
    requires forall i :: 0 <= i < |ext| ==> !('A' <= ext[i] <= 'Z')
    ensures PathExtension(a + "." + ext) == ext
  {
    PathExtensionLowers(a, ext);
    LowerAsciiIdentity(ext);
  }

  /** A path ending in a capitalised prototype name, such as `a.toString`, is served as the generic type. */
  lemma CapitalPrototypeNamesNotServed(a: string, ext: string)
    requires ext in PrototypeMembers && ext != "constructor" && ext != "__proto__"
    ensures ContentTypeFromPath(a + "." + ext) == OctetStream
  {
    PrototypeNamesDotFree(ext);
    PathExtensionLowers(a, ext);
    CapitalPrototypeNames(ext);
  }

  lemma PrototypeNamesDotFree(ext: string)
    requires ext in PrototypeMembers
    ensures '.' !in ext
  {
  }

  /** The extension of `a.ext`, for `ext` without a dot, is `ext` lowercased. */
  lemma PathExtensionLowers(a: string, ext: string)
    requires '.' !in ext
    ensures PathExtension(a + "." + ext) == ToLowerAscii(ext)
  {
    assert a + "." + ext == a + ['.'] + ext;
    LastPieceAfter(a, '.', ext);
  }

  lemma ExtensionsArePlain(mime: string)
    requires IsAllowedType(mime)
    ensures var ext := MimeToExtension[mime];
      '.' !in ext && (forall i :: 0 <= i < |ext| ==> !('A' <= ext[i] <= 'Z')) && ext in ExtensionToMime
  {
  }

  /**
   * A blob stored under a derived path is served with the type it was uploaded
   * with (`image/jpg` comes back as `image/jpeg`), whatever comes before the
   * path and whatever the hash.
   */
  lemma ServedTypeOfStoredPath(prefix: string, hash: string, mime: string, c: Clock)
    requires IsAllowedType(mime)
    ensures var ext := MimeToExtension[mime];
      ContentTypeFromPath(prefix + StoragePath(hash, ext, c)) == ExtensionToMime[ext]
  {
    var ext := MimeToExtension[mime];
    ExtensionsArePlain(mime);
    var a := prefix + YearMonth(c) + "/" + hash;
    PrefixedPath(prefix, hash, ext, c);
    ContentTypeOfExtension(a, ext);
  }

  lemma PrefixedPath(prefix: string, hash: string, ext: string, c: Clock)
    ensures prefix + StoragePath(hash, ext, c) == (prefix + YearMonth(c) + "/" + hash) + "." + ext
  {
  }

  /** `buildFileUrl` */
  function FileUrl(cdnBaseUrl: string, storedPath: string): (u: string)
    ensures cdnBaseUrl <= u && u[|cdnBaseUrl|..] == "/" + storedPath
  {
    cdnBaseUrl + "/" + storedPath
  }

  // ---------------------------------------------------------------- the bucket

  const ImmutableCacheControl: string := "public, max-age=31536000, immutable"

  /** A blob with the HTTP metadata attached when it was written. */
  datatype StoredObject = StoredObject(data: seq<Byte>, contentType: string, cacheControl: string)

  /** The object store: a map from path to blob. */
  class Bucket {
    var objects: map<string, StoredObject>

    constructor ()
      ensures objects == map[]
    {
      objects := map[];
    }

    /** `uploadToR2`: a write that either replaces the blob at `path` or throws and changes nothing. */
    method Put(path: string, data: seq<Byte>, contentType: string, fault: Fault) returns (outcome: Fault)
      modifies this
      ensures outcome == fault
      ensures objects == if fault.Succeeds?
        then old(objects)[path := StoredObject(data, contentType, ImmutableCacheControl)]
        else old(objects)
    {
      outcome := fault;
      if fault.Succeeds? {
        objects := objects[path := StoredObject(data, contentType, ImmutableCacheControl)];
      }
    }

    /** `deleteFromR2`: idempotent removal, or a throw that changes nothing. */
    method Delete(path: string, fault: Fault) returns (outcome: Fault)
      modifies this
      ensures outcome == fault
      ensures objects == if fault.Succeeds? then old(objects) - {path} else old(objects)
    {
      outcome := fault;
      if fault.Succeeds? {
        objects := objects - {path};
      }
    }

    /** `getFromR2` */
    function Get(path: string): Option<StoredObject>
      reads this
    {
      if path in objects then Some(objects[path]) else None
    }
  }
}
