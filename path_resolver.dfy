/**
 * The destination-path resolver (FileReorganizationService): the SHA-256
 * digest of origin path + file name is hex-encoded, its first three pairs of
 * hex characters become three directory levels under the base directory, and
 * the file name is appended.
 *
 * SHA-256 itself is not part of this model: it is the parameter `sha256`,
 * any function returning 32 (signed, as in Java) bytes.
 */
module PathResolver {
  import opened Wrappers
  import opened JavaText
  import opened Domain

  /** A Java `byte`. */
  newtype JByte = b: int | -128 <= b < 128

  /** The 32 bytes of a SHA-256 digest. */
  type Digest = d: seq<JByte> | |d| == 32 witness seq(32, _ => 0 as JByte)

  const PARTITION_DEPTH: nat := 3
  const CHARS_PER_LEVEL: nat := 2

  /** `0xff & b`: the unsigned value of a signed byte. */
  function Unsigned(b: JByte): (v: nat)
    ensures v < 256
    ensures (v - b as int) % 256 == 0
  {
    if b < 0 then b as int + 256 else b as int
  }

  predicate IsLowerHex(c: char) {
    '0' <= c <= '9' || 'a' <= c <= 'f'
  }

  function HexDigit(d: nat): (c: char)
    requires d < 16
    ensures IsLowerHex(c)
  {
    if d < 10 then ('0' as int + d) as char else ('a' as int + d - 10) as char
  }

  /** The value of one lower-case hex digit (the inverse of `HexDigit`); any other character reads as 0. */
  function HexValue(c: char): (d: nat)
    ensures IsLowerHex(c) ==> d < 16 && HexDigit(d) == c
  {
    if '0' <= c <= '9' then c as int - '0' as int
    else if 'a' <= c <= 'f' then c as int - 'a' as int + 10
    else 0
  }

  /** `Integer.toHexString(v)` for `0 <= v < 256`: lower case, no leading zero. */
  function ToHexString(v: nat): (s: string)
    requires v < 256
  {
    if v < 16 then [HexDigit(v)] else [HexDigit(v / 16), HexDigit(v % 16)]
  }

  /** What `bytesToHex` appends for one byte: `toHexString`, padded with '0' to two characters. */
  function ByteHex(b: JByte): (s: string) {
    var hex := ToHexString(Unsigned(b));
    if |hex| == 1 then ['0'] + hex else hex
  }

  /** The whole of `bytesToHex`: each byte's two characters, in order. */
  function HexEncode(bytes: seq<JByte>): (s: string)
    ensures |s| == 2 * |bytes|
    ensures forall i :: 0 <= i < |s| ==> IsLowerHex(s[i])
  {
    if bytes == [] then [] else HexEncode(bytes[..|bytes| - 1]) + ByteHex(bytes[|bytes| - 1])
  }

  /** Reads a string of lower-case hex pairs back as unsigned byte values, pair `i` giving value `i`. */
  function HexDecode(s: string): (r: seq<nat>)
    requires |s| % 2 == 0
    ensures |r| == |s| / 2
  {
    seq(|s| / 2, i requires 0 <= i < |s| / 2 => HexValue(s[2 * i]) * 16 + HexValue(s[2 * i + 1]))
  }

  function UnsignedAll(bytes: seq<JByte>): (r: seq<nat>)
    ensures |r| == |bytes| && forall i :: 0 <= i < |r| ==> r[i] == Unsigned(bytes[i])
  {
    seq(|bytes|, i requires 0 <= i < |bytes| => Unsigned(bytes[i]))
  }

  /** Each byte's two characters are the zero-padded high and low nibbles. */
  lemma ByteHexNibbles(b: JByte)
    ensures |ByteHex(b)| == 2
    ensures ByteHex(b)[0] == HexDigit(Unsigned(b) / 16)
    ensures ByteHex(b)[1] == HexDigit(Unsigned(b) % 16)
  {
  }

  /** Reading a hex digit back gives its value. */
  lemma HexValueOfDigit(d: nat)
    requires d < 16
    ensures HexValue(HexDigit(d)) == d
  {
  }

  /** Pair `i` of the encoding decodes to byte `i`'s unsigned value. */
  lemma HexPairDecodes(bytes: seq<JByte>, i: nat)
    requires i < |bytes|
    ensures var e := HexEncode(bytes);
      HexValue(e[2 * i]) * 16 + HexValue(e[2 * i + 1]) == Unsigned(bytes[i])
  {
    var v := Unsigned(bytes[i]);
    HexEncodeAt(bytes, i);
    ByteHexNibbles(bytes[i]);
    HexValueOfDigit(v / 16);
    HexValueOfDigit(v % 16);
  }

  /** Decoding the hex string gives back every byte, as `0xff & b`: no information is lost. */
  lemma HexEncodeRoundTrip(bytes: seq<JByte>)
    ensures HexDecode(HexEncode(bytes)) == UnsignedAll(bytes)
  {
    var e := HexEncode(bytes);
    assert |e| / 2 == |bytes|;
    var d := HexDecode(e);
    forall i | 0 <= i < |bytes|
      ensures d[i] == Unsigned(bytes[i])
    {
      HexPairDecodes(bytes, i);
    }
  }

  /** Characters `2i` and `2i+1` of the encoding are those of byte `i`. */
  lemma {:induction false} HexEncodeAt(bytes: seq<JByte>, i: nat)
    requires i < |bytes|
    ensures HexEncode(bytes)[2 * i .. 2 * i + 2] == ByteHex(bytes[i])
  {
    ByteHexNibbles(bytes[|bytes| - 1]);
    if i < |bytes| - 1 {
      HexEncodeAt(bytes[..|bytes| - 1], i);
      assert HexEncode(bytes)[..2 * |bytes| - 2] == HexEncode(bytes[..|bytes| - 1]);
    }
  }

  /** `bytesToHex`: one StringBuilder append per byte. */
  method BytesToHex(bytes: seq<JByte>) returns (hex: string)
    ensures hex == HexEncode(bytes)
  {
    hex := [];
    for i := 0 to |bytes|
      invariant hex == HexEncode(bytes[..i])
    {
      var h := ToHexString(Unsigned(bytes[i]));
      if |h| == 1 {
        hex := hex + ['0'];
      }
      hex := hex + h;
      assert bytes[..i + 1][..i] == bytes[..i];
    }
    assert bytes[..|bytes|] == bytes;
  }

  function Min(a: int, b: int): int {
    if a <= b then a else b
  }

  /** `hash.substring(start, min(start + 2, length))` for partition level `level`. */
  function Level(hash: string, level: nat): string
    requires level * CHARS_PER_LEVEL <= |hash|
  {
    hash[level * CHARS_PER_LEVEL .. Min(level * CHARS_PER_LEVEL + CHARS_PER_LEVEL, |hash|)]
  }

  /** The first `n` levels of the partition, separated by '/'. */
  function JoinLevels(hash: string, n: nat): string
    requires n == 0 || (n - 1) * CHARS_PER_LEVEL <= |hash|
  {
    if n == 0 then ""
    else if n == 1 then Level(hash, 0)
    else JoinLevels(hash, n - 1) + "/" + Level(hash, n - 1)
  }

  /**
   * `buildPartitionPath`. `substring` throws when a level starts past the end
   * of the hash, so there is a result only for hashes of at least
   * (PARTITION_DEPTH - 1) * CHARS_PER_LEVEL = 4 characters.
   */
  function PartitionPath(hash: string): Option<string> {
    if (PARTITION_DEPTH - 1) * CHARS_PER_LEVEL <= |hash|
    then Some(JoinLevels(hash, PARTITION_DEPTH))
    else None
  }

  /** The loop of `buildPartitionPath`; `None` stands for the StringIndexOutOfBoundsException. */
  method BuildPartitionPath(hash: string) returns (path: Option<string>)
    ensures path == PartitionPath(hash)
  {
    var sb := "";
    for i := 0 to PARTITION_DEPTH
      invariant i * CHARS_PER_LEVEL <= |hash| + CHARS_PER_LEVEL || i == PARTITION_DEPTH
      invariant i == 0 || (i - 1) * CHARS_PER_LEVEL <= |hash|
      invariant sb == JoinLevels(hash, i)
    {
      var start := i * CHARS_PER_LEVEL;
      var end := Min(start + CHARS_PER_LEVEL, |hash|);
      if i > 0 {
        sb := sb + "/";
      }
      if start > end {
        return None;
      }
      sb := sb + hash[start..end];
    }
    return Some(sb);
  }

  /** A hash of six characters or more is cut into three full two-character levels. */
  lemma PartitionOfLongHash(hash: string)
    requires |hash| >= 6
    ensures PartitionPath(hash) == Some(hash[0..2] + "/" + hash[2..4] + "/" + hash[4..6])
  {
    assert JoinLevels(hash, 2) == hash[0..2] + "/" + hash[2..4];
  }

  /** Between four and six characters the last level is cut short at the end of the hash; below four there is no result. */
  lemma PartitionOfShortHash(hash: string)
    requires |hash| < 6
    ensures 4 <= |hash| ==> PartitionPath(hash) == Some(hash[0..2] + "/" + hash[2..4] + "/" + hash[4..])
    ensures |hash| < 4 <==> PartitionPath(hash).None?
  {
    if 4 <= |hash| {
      assert JoinLevels(hash, 2) == hash[0..2] + "/" + hash[2..4];
      assert Level(hash, 2) == hash[4..];
    }
  }

  /** The partition of a hex string is eight characters with '/' exactly at positions 2 and 5. */
  lemma PartitionShape(hash: string)
    requires |hash| >= 6
    requires forall i :: 0 <= i < |hash| ==> IsLowerHex(hash[i])
    ensures PartitionPath(hash).Some?
    ensures var p := PartitionPath(hash).value;
      |p| == 8 && p[2] == '/' && p[5] == '/'
      && forall i :: 0 <= i < 8 && i != 2 && i != 5 ==> IsLowerHex(p[i])
  {
    PartitionOfLongHash(hash);
  }

  /** The string fed to SHA-256: origin path followed by file name (not `idUnico`). */
  function HashInput(archivo: ArchivoLegacy): string {
    OrNull(archivo.rutaOrigen) + OrNull(archivo.nombre)
  }

  /** The hex partition directory of a file: three levels of the hex digest of its hash input. */
  function Partition(sha256: string -> Digest, archivo: ArchivoLegacy): (p: string)
    ensures |p| == 8
  {
    var hash := HexEncode(sha256(HashInput(archivo)));
    PartitionShape(hash);
    PartitionPath(hash).value
  }

  /** `calculateDestinationPath`, as a value: base directory, partition, file name. */
  function DestinationPath(sha256: string -> Digest, archivo: ArchivoLegacy, baseDir: string): string {
    baseDir + "/" + Partition(sha256, archivo) + "/" + OrNull(archivo.nombre)
  }

  /** `calculateDestinationPath`, computed through the two loops. */
  method CalculateDestinationPath(sha256: string -> Digest, archivo: ArchivoLegacy, baseDir: string)
    returns (path: string)
    ensures path == DestinationPath(sha256, archivo, baseDir)
  {
    var hash := BytesToHex(sha256(OrNull(archivo.rutaOrigen) + OrNull(archivo.nombre)));
    var partition := BuildPartitionPath(hash);
    PartitionShape(hash);
    path := baseDir + "/" + partition.value + "/" + OrNull(archivo.nombre);
  }

  /** The message of the exception raised when the platform offers no SHA-256 digest. */
  const HASH_FAILURE := "Failed to generate hash"

  /**
   * `calculateDestinationPath` together with the one failure it can raise:
   * without a SHA-256 implementation (`digestAvailable` false) it throws
   * `HASH_FAILURE` before any path exists.
   */
  function TryDestinationPath(sha256: string -> Digest, archivo: ArchivoLegacy, baseDir: string, digestAvailable: bool)
    : Result<string, string>
  {
    if digestAvailable then Success(DestinationPath(sha256, archivo, baseDir)) else Failure(HASH_FAILURE)
  }

  /**
   * The destination is the base directory, '/', the first six hex characters
   * of the digest of origin path + name cut as `a1/b2/c3`, '/', and the name.
   */
  lemma DestinationPathShape(sha256: string -> Digest, archivo: ArchivoLegacy, baseDir: string)
    ensures var hex := HexEncode(sha256(OrNull(archivo.rutaOrigen) + OrNull(archivo.nombre)));
      DestinationPath(sha256, archivo, baseDir)
        == baseDir + "/" + hex[0..2] + "/" + hex[2..4] + "/" + hex[4..6] + "/" + OrNull(archivo.nombre)
    ensures var path := DestinationPath(sha256, archivo, baseDir);
      |path| == |baseDir| + 10 + |OrNull(archivo.nombre)|
      && path[..|baseDir| + 1] == baseDir + "/"
      && path[|baseDir| + 3] == '/' && path[|baseDir| + 6] == '/' && path[|baseDir| + 9] == '/'
  {
    var hash := HexEncode(sha256(HashInput(archivo)));
    PartitionOfLongHash(hash);
    PartitionShape(hash);
  }

  /**
   * Two files with the same origin path and name get the same destination
   * whatever their `idUnico`: the id takes no part in the path.
   */
  lemma DestinationIgnoresIdUnico(sha256: string -> Digest, a: ArchivoLegacy, b: ArchivoLegacy, baseDir: string)
    requires a.rutaOrigen == b.rutaOrigen && a.nombre == b.nombre
    ensures DestinationPath(sha256, a, baseDir) == DestinationPath(sha256, b, baseDir)
  {
  }

  /**
   * Path and name are concatenated without a separator, so two different
   * (path, name) pairs with the same concatenation share a partition directory.
   */
  lemma ConcatenatedHashInputCollides(sha256: string -> Digest)
    ensures var a := ArchivoLegacy(Some("1"), Some("/in/ab"), Some("c.txt"), None);
      var b := ArchivoLegacy(Some("2"), Some("/in/a"), Some("bc.txt"), None);
      a.rutaOrigen != b.rutaOrigen && Partition(sha256, a) == Partition(sha256, b)
  {
    var a := ArchivoLegacy(Some("1"), Some("/in/ab"), Some("c.txt"), None);
    var b := ArchivoLegacy(Some("2"), Some("/in/a"), Some("bc.txt"), None);
    assert HashInput(a) == HashInput(b);
  }
}
