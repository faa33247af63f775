/** Content digests and their two string forms (oci/digest.rs). */
module Digests {
  import opened Common
  import opened Text

  datatype Digest = Digest(algorithm: string, hex: string)

  predicate IsHexDigit(c: char) {
    '0' <= c <= '9' || 'a' <= c <= 'f' || 'A' <= c <= 'F'
  }

  /** What `from_str_checked` accepts. */
  predicate Valid(d: Digest) {
    && ((d.algorithm == "sha256" && |d.hex| == 64) || (d.algorithm == "sha512" && |d.hex| == 128))
    && forall c :: c in d.hex ==> IsHexDigit(c)
  }

  function ToString(d: Digest): string {
    d.algorithm + [':'] + d.hex
  }

  function FromStrChecked(s: string): Option<Digest> {
    match SplitOnce(s, ':')
    case None => None
    case Some((algorithm, hex)) =>
      if algorithm != "sha256" && algorithm != "sha512" then None
      else
        var expected := if algorithm == "sha256" then 64 else 128;
        if |hex| != expected then None
        else if exists c :: c in hex && !IsHexDigit(c) then None
        else Some(Digest(algorithm, hex))
  }

  function S3Key(d: Digest): string
    requires |d.hex| >= 2
  {
    "blobs" + ['/'] + (d.algorithm + ['/'] + (d.hex[..2] + ['/'] + d.hex))
  }

  /** Printing and parsing are inverse, and only digests that print to the text are accepted. */
  lemma ParsePrint(s: string, d: Digest)
    ensures FromStrChecked(s) == Some(d) <==> Valid(d) && s == ToString(d)
  {
    if Valid(d) && s == ToString(d) {
      SplitOnceJoined(d.algorithm, ':', d.hex);
    }
    if FromStrChecked(s) == Some(d) {
      var i := IndexOf(s, ':');
      assert s == s[..i] + [s[i]] + s[i + 1..];
    }
  }

  const HEX: string := "0123456789abcdefABCDEF"

  /** The accepted texts, spelled out. */
  ghost predicate IsDigest(s: string) {
    || (|s| == 7 + 64 && s[..7] == "sha256:" && forall c :: c in s[7..] ==> c in HEX)
    || (|s| == 7 + 128 && s[..7] == "sha512:" && forall c :: c in s[7..] ==> c in HEX)
  }

  lemma HexDigits(c: char)
    ensures IsHexDigit(c) <==> c in HEX
  {
    if '0' <= c <= '9' {
      assert HEX[c as int - '0' as int] == c;
    }
    if 'a' <= c <= 'f' {
      assert HEX[c as int - 'a' as int + 10] == c;
    }
    if 'A' <= c <= 'F' {
      assert HEX[c as int - 'A' as int + 16] == c;
    }
  }

  lemma AcceptedIff(s: string)
    ensures FromStrChecked(s).Some? <==> IsDigest(s)
  {
    forall c ensures IsHexDigit(c) <==> c in HEX { HexDigits(c); }
    if IsDigest(s) {
      var d := Digest(s[..6], s[7..]);
      assert s == s[..7] + s[7..] && s[..7][..6] == s[..6] && s[..6] + [':'] == s[..7];
      ParsePrint(s, d);
    }
    if FromStrChecked(s).Some? {
      var d := FromStrChecked(s).value;
      ParsePrint(s, d);
      assert s[..7] == d.algorithm + [':'] && s[7..] == d.hex;
    }
  }

  /** The collector's inverse of `S3Key` (gc.rs): the digest text an object key stands for. */
  function S3KeyToDigest(key: string): Option<string> {
    match SplitInFour(key, '/')
    case None => None
    case Some((top, algorithm, shard, hex)) =>
      if top == "blobs" && shard <= hex then Some(algorithm + [':'] + hex) else None
  }

  /** `blobs/algorithm/shard/hex` without further slashes up to the hex part, which starts with the shard. */
  ghost predicate IsBlobKey(key: string, algorithm: string, shard: string, hex: string) {
    && key == "blobs" + ['/'] + (algorithm + ['/'] + (shard + ['/'] + hex))
    && '/' !in algorithm && '/' !in shard && shard <= hex
  }

  /** The keys the collector takes for blobs, and what it reads from them. */
  lemma BlobKeyIff(key: string, text: string)
    ensures S3KeyToDigest(key) == Some(text) <==>
            exists algorithm, shard, hex :: IsBlobKey(key, algorithm, shard, hex) && text == algorithm + ":" + hex
  {
    if S3KeyToDigest(key) == Some(text) {
      var parts := SplitInFour(key, '/').value;
      SplitInFourParts(key, '/');
      assert IsBlobKey(key, parts.1, parts.2, parts.3);
    }
    if algorithm, shard, hex :| IsBlobKey(key, algorithm, shard, hex) && text == algorithm + ":" + hex {
      assert '/' !in "blobs";
      SplitInFourJoined("blobs", algorithm, shard, hex, '/');
    }
  }

  /** The two codecs agree on every valid digest, although they live in different files. */
  lemma S3KeyRoundTrip(d: Digest)
    requires Valid(d)
    ensures S3KeyToDigest(S3Key(d)) == Some(ToString(d))
  {
    assert '/' !in "blobs" && '/' !in "sha256" && '/' !in "sha512";
    assert '/' !in d.hex[..2] by { assert forall c :: c in d.hex[..2] ==> c in d.hex && IsHexDigit(c); }
    SplitInFourJoined("blobs", d.algorithm, d.hex[..2], d.hex, '/');
  }

  /** A valid digest is stored under its algorithm, its first two hexadecimal digits and all of them. */
  lemma S3KeyForm(d: Digest)
    requires Valid(d)
    ensures IsBlobKey(S3Key(d), d.algorithm, [d.hex[0], d.hex[1]], d.hex)
  {
    assert d.hex[..2] == [d.hex[0], d.hex[1]];
    assert IsHexDigit(d.hex[0]) && IsHexDigit(d.hex[1]);
    assert '/' !in "sha256" && '/' !in "sha512";
  }

  /** Distinct blobs never share an object key. */
  lemma S3KeyInjective(d: Digest, e: Digest)
    requires Valid(d) && Valid(e) && S3Key(d) == S3Key(e)
    ensures d == e
  {
    S3KeyRoundTrip(d);
    S3KeyRoundTrip(e);
    ParsePrint(ToString(d), d);
    ParsePrint(ToString(e), e);
  }

  const SHA256: string := "sha256:"
  const SHA512: string := "sha512:"

  predicate IsDigestText(reference: string) { SHA256 <= reference || SHA512 <= reference }

  /** `get_manifest` among the manifests and tags of one repository: digests directly, anything else as a tag. */
  function Lookup<E>(manifests: map<string, E>, tags: map<string, string>, reference: string): Option<E> {
    if IsDigestText(reference) then
      if reference in manifests then Some(manifests[reference]) else None
    else if reference in tags && tags[reference] in manifests then Some(manifests[tags[reference]])
    else None
  }
}
