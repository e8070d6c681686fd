/** The GitHub push webhook: signature gate, payload inspection and cache
    invalidation. HMAC-SHA256 (RFC 2104, section 2) is an uninterpreted
    function from key and message bytes to a 32-byte digest; JSON parsing
    is an oracle from the body text to the payload, `None` when it throws
    or yields `null`. */
module Webhook {
  import opened Wrappers
  import opened Text

  newtype byte = b: int | 0 <= b < 256

  type Digest = d: seq<byte> | |d| == 32 witness seq(32, i => 0)

  // ---------------------------------------------------------------------
  // Bytes of a string
  // ---------------------------------------------------------------------

  /** The UTF-8 encoding of one Unicode scalar value. */
  function EncodeChar(c: char): (r: seq<byte>)
    ensures 1 <= |r| <= 4
    ensures (r[0] < 0x80) <==> (c as int < 0x80)
    ensures c as int < 0x80 ==> r == [c as int as byte]
  {
    var n := c as int;
    if n < 0x80 then [n as byte]
    else if n < 0x800 then [(0xC0 + n / 64) as byte, (0x80 + n % 64) as byte]
    else if n < 0x10000 then [(0xE0 + n / 4096) as byte, (0x80 + (n / 64) % 64) as byte, (0x80 + n % 64) as byte]
    else [(0xF0 + n / 262144) as byte, (0x80 + (n / 4096) % 64) as byte, (0x80 + (n / 64) % 64) as byte, (0x80 + n % 64) as byte]
  }

  /** `Buffer.from(s)`: the UTF-8 bytes of `s`. */
  function Utf8(s: string): (r: seq<byte>)
    ensures |r| >= |s|
    decreases |s|
  {
    if |s| == 0 then [] else EncodeChar(s[0]) + Utf8(s[1..])
  }

  predicate IsAscii(s: string) {
    forall i :: 0 <= i < |s| ==> s[i] as int < 0x80
  }

  lemma {:induction false} Utf8Ascii(s: string)
    requires IsAscii(s)
    ensures |Utf8(s)| == |s|
    ensures forall i :: 0 <= i < |s| ==> Utf8(s)[i] as int == s[i] as int
    decreases |s|
  {
    if |s| > 0 {
      Utf8Ascii(s[1..]);
    }
  }

  /** A string whose bytes equal those of an ASCII string is that string. */
  lemma {:induction false} Utf8AsciiInjective(s: string, t: string)
    requires IsAscii(s)
    requires Utf8(t) == Utf8(s)
    ensures t == s
    decreases |s|
  {
    Utf8Ascii(s);
    if |t| > 0 {
      var e := EncodeChar(t[0]);
      assert Utf8(t) == e + Utf8(t[1..]);
      assert e[0] == Utf8(t)[0] == Utf8(s)[0];
      assert |s| > 0;
      assert e == [s[0] as int as byte];
      assert t[0] == s[0];
      assert Utf8(s) == EncodeChar(s[0]) + Utf8(s[1..]);
      assert Utf8(t[1..]) == Utf8(t)[1..] == Utf8(s)[1..] == Utf8(s[1..]);
      Utf8AsciiInjective(s[1..], t[1..]);
    } else {
      assert |Utf8(s)| == 0;
    }
  }

  // ---------------------------------------------------------------------
  // Hex digests
  // ---------------------------------------------------------------------

  function HexDigit(n: nat): (c: char)
    requires n < 16
    ensures c as int < 0x80
  {
    if n < 10 then ('0' as int + n) as char else ('a' as int + n - 10) as char
  }

  lemma HexDigitInjective(a: nat, b: nat)
    requires a < 16 && b < 16 && HexDigit(a) == HexDigit(b)
    ensures a == b
  {
  }

  /** `digest("hex")`: two lower-case hex digits per byte. */
  function Hex(d: seq<byte>): (r: string)
    ensures |r| == 2 * |d|
    ensures IsAscii(r)
    ensures forall i :: 0 <= i < |d| ==>
      r[2 * i] == HexDigit(d[i] as int / 16) && r[2 * i + 1] == HexDigit(d[i] as int % 16)
    decreases |d|
  {
    if |d| == 0 then ""
    else
      var rest := Hex(d[1..]);
      HexPrepend(d, rest);
      [HexDigit(d[0] as int / 16), HexDigit(d[0] as int % 16)] + rest
  }

  /** The digits of the first byte in front of those of the others. */
  lemma HexPrepend(d: seq<byte>, rest: string)
    requires |d| > 0 && |rest| == 2 * (|d| - 1) && IsAscii(rest)
    requires forall i :: 0 <= i < |d| - 1 ==>
      rest[2 * i] == HexDigit(d[i + 1] as int / 16) && rest[2 * i + 1] == HexDigit(d[i + 1] as int % 16)
    ensures var r := [HexDigit(d[0] as int / 16), HexDigit(d[0] as int % 16)] + rest;
      && IsAscii(r)
      && forall i :: 0 <= i < |d| ==>
           r[2 * i] == HexDigit(d[i] as int / 16) && r[2 * i + 1] == HexDigit(d[i] as int % 16)
  {
    var r := [HexDigit(d[0] as int / 16), HexDigit(d[0] as int % 16)] + rest;
    forall i | 1 <= i < |d|
      ensures r[2 * i] == HexDigit(d[i] as int / 16) && r[2 * i + 1] == HexDigit(d[i] as int % 16)
    {
      assert r[2 * i] == rest[2 * (i - 1)] && r[2 * i + 1] == rest[2 * (i - 1) + 1];
    }
  }

  lemma HexInjective(a: seq<byte>, b: seq<byte>)
    requires |a| == |b| && Hex(a) == Hex(b)
    ensures a == b
  {
    forall i | 0 <= i < |a| ensures a[i] == b[i] {
      HexDigitInjective(a[i] as int / 16, b[i] as int / 16);
      HexDigitInjective(a[i] as int % 16, b[i] as int % 16);
    }
  }

  const SignaturePrefix: string := "sha256="

  /** The header value GitHub sends for `body` signed with `secret`. */
  function ExpectedSignature(hmac: (seq<byte>, seq<byte>) -> Digest, secret: string, body: string): (r: string)
    ensures |r| == 71 && IsAscii(r)
    ensures StartsWith(r, SignaturePrefix)
  {
    SignaturePrefix + Hex(hmac(Utf8(secret), Utf8(body)))
  }

  /** `verifySignature`: `timingSafeEqual` on the bytes of the expected and
      the received header; `None` when it throws on unequal lengths. */
  function VerifySignature(hmac: (seq<byte>, seq<byte>) -> Digest, body: string, signature: string,
                           secret: string): (r: Option<bool>)
    ensures r.None? <==> |Utf8(signature)| != 71
    ensures r == Some(true) <==> signature == ExpectedSignature(hmac, secret, body)
  {
    var expected := Utf8(ExpectedSignature(hmac, secret, body));
    var received := Utf8(signature);
    Utf8Ascii(ExpectedSignature(hmac, secret, body));
    if |expected| != |received| then None
    else
      if received == expected then
        Utf8AsciiInjective(ExpectedSignature(hmac, secret, body), signature);
        Some(true)
      else
        Some(false)
  }

  /** A signature made for one body does not pass for a body whose HMAC
      differs. */
  lemma TamperedBodyRejected(hmac: (seq<byte>, seq<byte>) -> Digest, secret: string, body: string, other: string)
    requires hmac(Utf8(secret), Utf8(body)) != hmac(Utf8(secret), Utf8(other))
    ensures VerifySignature(hmac, other, ExpectedSignature(hmac, secret, body), secret) == Some(false)
  {
    var a, b := hmac(Utf8(secret), Utf8(body)), hmac(Utf8(secret), Utf8(other));
    var sa, sb := ExpectedSignature(hmac, secret, body), ExpectedSignature(hmac, secret, other);
    Utf8Ascii(sa);
    if sa == sb {
      assert Hex(a) == sa[7..] == sb[7..] == Hex(b);
      HexInjective(a, b);
    }
  }

  // ---------------------------------------------------------------------
  // The payload
  // ---------------------------------------------------------------------

  datatype Commit = Commit(added: Option<seq<string>>, modified: Option<seq<string>>, removed: Option<seq<string>>)

  /** The fields read from a push payload; `None` for an absent field.
      `ref` is `None` also when it is not a string. */
  datatype Payload = Payload(ref: Option<string>, defaultBranch: Option<string>, commits: Option<seq<Commit>>)

  /** A path whose change invalidates the catalog. */
  predicate IsCatalogPath(file: string) {
    StartsWith(file, "data/projects/") || file == "public/index.json"
  }

  function Files(c: Commit): seq<string> {
    c.added.GetOr([]) + c.modified.GetOr([]) + c.removed.GetOr([])
  }

  predicate TouchesCatalog(c: Commit) {
    exists i :: 0 <= i < |Files(c)| && IsCatalogPath(Files(c)[i])
  }

  /** `payload.commits?.some(...)` in a boolean context. */
  predicate TouchedProjects(p: Payload) {
    p.commits.Some? && exists i :: 0 <= i < |p.commits.value| && TouchesCatalog(p.commits.value[i])
  }

  /** `${payload.repository?.default_branch}`: an absent branch renders as
      `undefined`. */
  function BranchText(b: Option<string>): string {
    if b.None? then "undefined" else b.value
  }

  predicate IsDefaultBranchPush(p: Payload) {
    p.ref == Some("refs/heads/" + BranchText(p.defaultBranch))
  }

  // ---------------------------------------------------------------------
  // The handler
  // ---------------------------------------------------------------------

  datatype Reply = NoSignature | ConfigurationError | InvalidSignature | ProcessingFailed | Success

  function Status(r: Reply): nat {
    match r
    case NoSignature => 401
    case ConfigurationError => 500
    case InvalidSignature => 401
    case ProcessingFailed => 500
    case Success => 200
  }

  /** The reply and how many times `revalidateTag("projects")` ran. */
  datatype Result = Result(reply: Reply, revalidations: nat)

  /** `POST`: the checks in the source's order. */
  function Post(signature: Option<string>, secret: Option<string>, body: string,
                hmac: (seq<byte>, seq<byte>) -> Digest, parse: string -> Option<Payload>): (r: Result)
    ensures r.revalidations <= 1
    ensures signature.None? || signature == Some("") ==> r == Result(NoSignature, 0)
    ensures signature.Some? && signature.value != "" && (secret.None? || secret == Some("")) ==>
      r == Result(ConfigurationError, 0)
    ensures r.reply == Success <==>
      && signature.Some? && secret.Some? && secret.value != ""
      && signature.value == ExpectedSignature(hmac, secret.value, body)
      && parse(body).Some?
    ensures r.revalidations == 1 <==>
      r.reply == Success && IsDefaultBranchPush(parse(body).value) && TouchedProjects(parse(body).value)
  {
    if signature.None? || signature.value == "" then Result(NoSignature, 0)
    else if secret.None? || secret.value == "" then Result(ConfigurationError, 0)
    else
      match VerifySignature(hmac, body, signature.value, secret.value)
      case None => Result(ProcessingFailed, 0)
      case Some(false) => Result(InvalidSignature, 0)
      case Some(true) =>
        match parse(body)
        case None => Result(ProcessingFailed, 0)
        case Some(payload) =>
          var invalidate := IsDefaultBranchPush(payload) && TouchedProjects(payload);
          Result(Success, if invalidate then 1 else 0)
  }

  /** A header of the wrong byte length makes the comparison throw: the
      reply is 500, not 401. */
  lemma WrongLengthIsServerError(signature: string, secret: string, body: string,
                                 hmac: (seq<byte>, seq<byte>) -> Digest, parse: string -> Option<Payload>)
    requires signature != "" && secret != ""
    requires |Utf8(signature)| != 71
    ensures Post(Some(signature), Some(secret), body, hmac, parse) == Result(ProcessingFailed, 0)
    ensures Status(Post(Some(signature), Some(secret), body, hmac, parse).reply) == 500
  {
  }

  /** A header of the right length that is not the expected one gets 401. */
  lemma WrongSignatureIsUnauthorized(signature: string, secret: string, body: string,
                                     hmac: (seq<byte>, seq<byte>) -> Digest, parse: string -> Option<Payload>)
    requires signature != "" && secret != ""
    requires |Utf8(signature)| == 71 && signature != ExpectedSignature(hmac, secret, body)
    ensures Post(Some(signature), Some(secret), body, hmac, parse) == Result(InvalidSignature, 0)
  {
  }

  /** The body is parsed only after the signature passed: before that the
      reply does not depend on the parser. */
  lemma ParseAfterVerification(signature: Option<string>, secret: Option<string>, body: string,
                               hmac: (seq<byte>, seq<byte>) -> Digest, parse1: string -> Option<Payload>,
                               parse2: string -> Option<Payload>)
    requires signature.None? || secret.None? || signature.value != ExpectedSignature(hmac, secret.value, body)
    ensures Post(signature, secret, body, hmac, parse1) == Post(signature, secret, body, hmac, parse2)
  {
  }

  /** An unparseable body with a valid signature is a server error. */
  lemma UnparseableBodyFails(secret: string, body: string,
                             hmac: (seq<byte>, seq<byte>) -> Digest, parse: string -> Option<Payload>)
    requires secret != "" && parse(body).None?
    ensures Post(Some(ExpectedSignature(hmac, secret, body)), Some(secret), body, hmac, parse) == Result(ProcessingFailed, 0)
  {
  }

  /** The file a submission pull request adds is a catalog path, so merging
      it into the default branch invalidates the catalog. */
  lemma SubmissionPathInvalidates(slug: string, secret: string, body: string, branch: string,
                                  hmac: (seq<byte>, seq<byte>) -> Digest, parse: string -> Option<Payload>)
    requires secret != ""
    requires parse(body) == Some(Payload(Some("refs/heads/" + branch), Some(branch),
                                         Some([Commit(Some(["data/projects/" + slug + ".toml"]), None, None)])))
    ensures Post(Some(ExpectedSignature(hmac, secret, body)), Some(secret), body, hmac, parse) == Result(Success, 1)
  {
    var c := Commit(Some(["data/projects/" + slug + ".toml"]), None, None);
    var file := "data/projects/" + slug + ".toml";
    assert Files(c)[0] == file;
    assert file[..|"data/projects/"|] == "data/projects/";
    assert IsCatalogPath(Files(c)[0]);
    assert TouchesCatalog(c);
    assert parse(body).value.commits.value[0] == c;
    assert TouchedProjects(parse(body).value);
  }

  /** A payload without `repository` matches the branch `undefined`. */
  lemma MissingRepositoryMatchesUndefined(p: Payload)
    requires p.defaultBranch.None? && p.ref == Some("refs/heads/undefined")
    ensures IsDefaultBranchPush(p)
  {
    assert "refs/heads/" + BranchText(p.defaultBranch) == "refs/heads/undefined";
  }
}
