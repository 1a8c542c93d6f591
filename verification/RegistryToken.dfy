/**
  `mint_registry_token` and `verify_registry_token` of tinyagentos/agent_registry_store.py:
  the compact form of section 7.1 of RFC 7515.  JSON and Ed25519 are black boxes.
*/
module RegistryToken {
  import opened Wrappers
  import opened Base64Url

  type Key = seq<Byte>

  /** `project_id` is present only when it is not empty. */
  datatype Claims = Claims(
    sub: string, iss: string, iat: int, jti: string, userId: string, framework: string, projectId: Option<string>)

  datatype Jose = Jose(
    header: seq<Byte>,                        // the JSON of the fixed header
    dumps: Claims -> seq<Byte>,
    loads: seq<Byte> -> Option<Claims>,
    utf8: string -> seq<Byte>,
    sign: (Key, seq<Byte>) -> seq<Byte>,
    verify: (Key, seq<Byte>, seq<Byte>) -> bool)

  datatype TokenError = NotThreeParts | BadEncoding | BadSignature | BadJson

  // ---- splitting at dots -----------------------------------------------------------------------

  function SplitDots(s: string): (parts: seq<string>)
    ensures parts != []
    decreases |s|
  {
    var n := FirstDot(s);
    if n == |s| then [s] else [s[..n]] + SplitDots(s[n + 1..])
  }

  function FirstDot(s: string): (n: nat)
    ensures n <= |s|
    ensures forall k :: 0 <= k < n ==> s[k] != '.'
    ensures n < |s| ==> s[n] == '.'
  {
    if s == "" || s[0] == '.' then 0 else 1 + FirstDot(s[1..])
  }

  function JoinDots(parts: seq<string>): string
    requires parts != []
  {
    if |parts| == 1 then parts[0] else parts[0] + "." + JoinDots(parts[1..])
  }

  predicate NoDot(s: string) {
    forall k :: 0 <= k < |s| ==> s[k] != '.'
  }

  lemma FirstDotAt(s: string, rest: string)
    requires NoDot(s)
    ensures FirstDot(s + "." + rest) == |s|
  {
    var t := s + "." + rest;
    assert t[|s|] == '.';
    assert forall k :: 0 <= k < |s| ==> t[k] == s[k];
  }

  lemma SplitFirst(a: string, rest: string)
    requires NoDot(a)
    ensures SplitDots(a + "." + rest) == [a] + SplitDots(rest)
  {
    var s := a + "." + rest;
    FirstDotAt(a, rest);
    assert s[..|a|] == a && s[|a| + 1..] == rest;
  }

  lemma SplitThree(a: string, b: string, c: string)
    requires NoDot(a) && NoDot(b) && NoDot(c)
    ensures SplitDots(a + "." + (b + "." + c)) == [a, b, c]
  {
    SplitFirst(a, b + "." + c);
    SplitFirst(b, c);
    assert SplitDots(c) == [c];
  }

  lemma DotsRegroup(a: string, b: string, c: string)
    ensures a + "." + b + "." + c == a + "." + (b + "." + c)
  {
  }

  lemma JoinFirst(first: string, rest: seq<string>)
    requires rest != []
    ensures JoinDots([first] + rest) == first + "." + JoinDots(rest)
  {
    assert ([first] + rest)[1..] == rest;
  }

  lemma {:induction false} JoinSplit(s: string)
    ensures JoinDots(SplitDots(s)) == s
    ensures forall k :: 0 <= k < |SplitDots(s)| ==> NoDot(SplitDots(s)[k])
    decreases |s|
  {
    var n := FirstDot(s);
    if n < |s| {
      JoinSplit(s[n + 1..]);
      JoinFirst(s[..n], SplitDots(s[n + 1..]));
      assert s == s[..n] + "." + s[n + 1..];
    }
  }

  // ---- minting and verifying -------------------------------------------------------------------

  /** The claims of a new token; an empty project binds nothing. */
  function NewClaims(sub: string, iat: int, jti: string, userId: string, framework: string, projectId: Option<string>): Claims {
    Claims(sub, "taos-registry", iat, jti, userId, framework, if projectId == Some("") then None else projectId)
  }

  function Mint(j: Jose, claims: Claims, privateKey: Key): string {
    var signingInput := Encode(j.header) + "." + Encode(j.dumps(claims));
    signingInput + "." + Encode(j.sign(privateKey, j.utf8(signingInput)))
  }

  function Verify(j: Jose, token: string, publicKey: Key): Result<Claims, TokenError> {
    var parts := SplitDots(token);
    if |parts| != 3 then Failure(NotThreeParts) else
      match Decode(parts[2])
      case None => Failure(BadEncoding)
      case Some(signature) =>
        if !j.verify(publicKey, signature, j.utf8(parts[0] + "." + parts[1])) then Failure(BadSignature)
        else
          match Decode(parts[1])
          case None => Failure(BadEncoding)
          case Some(json) => match j.loads(json) case None => Failure(BadJson) case Some(claims) => Success(claims)
  }

  /** What is taken on trust: parsing undoes printing, and the key pair's own signatures verify. */
  ghost predicate Sound(j: Jose, privateKey: Key, publicKey: Key) {
    && (forall c: Claims :: j.loads(j.dumps(c)) == Some(c))
    && (forall m: seq<Byte> :: j.verify(publicKey, j.sign(privateKey, m), m))
  }

  lemma MintedParts(j: Jose, claims: Claims, privateKey: Key)
    ensures var signingInput := Encode(j.header) + "." + Encode(j.dumps(claims));
      SplitDots(Mint(j, claims, privateKey))
      == [Encode(j.header), Encode(j.dumps(claims)), Encode(j.sign(privateKey, j.utf8(signingInput)))]
  {
    var signingInput := Encode(j.header) + "." + Encode(j.dumps(claims));
    EncodeIsUnpadded(j.header);
    EncodeIsUnpadded(j.dumps(claims));
    EncodeIsUnpadded(j.sign(privateKey, j.utf8(signingInput)));
    var signature := Encode(j.sign(privateKey, j.utf8(signingInput)));
    SplitThree(Encode(j.header), Encode(j.dumps(claims)), signature);
    DotsRegroup(Encode(j.header), Encode(j.dumps(claims)), signature);
  }

  /** For every claim set, verifying a minted token returns the same claims. */
  lemma VerifyInvertsMint(j: Jose, claims: Claims, privateKey: Key, publicKey: Key)
    requires Sound(j, privateKey, publicKey)
    ensures Verify(j, Mint(j, claims, privateKey), publicKey) == Success(claims)
  {
    var signingInput := Encode(j.header) + "." + Encode(j.dumps(claims));
    var signature := j.sign(privateKey, j.utf8(signingInput));
    MintedParts(j, claims, privateKey);
    DecodeInvertsEncode(signature);
    DecodeInvertsEncode(j.dumps(claims));
    PartsVerify(j, Mint(j, claims, privateKey), publicKey, claims, signature,
                Encode(j.header), Encode(j.dumps(claims)), Encode(signature));
  }

  lemma PartsVerify(j: Jose, token: string, publicKey: Key, claims: Claims, signature: seq<Byte>,
                    h: string, p: string, s: string)
    requires SplitDots(token) == [h, p, s]
    requires Decode(s) == Some(signature) && j.verify(publicKey, signature, j.utf8(h + "." + p))
    requires Decode(p) == Some(j.dumps(claims)) && j.loads(j.dumps(claims)) == Some(claims)
    ensures Verify(j, token, publicKey) == Success(claims)
  {
  }

  /** So the bearer of a new token is the agent it was minted for, bound to a project only if one was named. */
  lemma NewTokenNames(j: Jose, sub: string, iat: int, jti: string, userId: string, framework: string,
                      projectId: Option<string>, privateKey: Key, publicKey: Key)
    requires Sound(j, privateKey, publicKey)
    ensures var r := Verify(j, Mint(j, NewClaims(sub, iat, jti, userId, framework, projectId), privateKey), publicKey);
      && r.Success? && r.value.sub == sub && r.value.iss == "taos-registry" && r.value.iat == iat && r.value.jti == jti
      && r.value.userId == userId && r.value.framework == framework
      && (r.value.projectId.Some? <==> projectId.Some? && projectId.value != "")
      && (r.value.projectId.Some? ==> r.value.projectId == projectId)
  {
    VerifyInvertsMint(j, NewClaims(sub, iat, jti, userId, framework, projectId), privateKey, publicKey);
  }

  /** Whatever verifies is three dot-free parts whose signature covers the claims returned. */
  lemma VerifiedIsSigned(j: Jose, token: string, publicKey: Key)
    requires Verify(j, token, publicKey).Success?
    ensures exists h, p, s ::
      && NoDot(h) && NoDot(p) && NoDot(s) && token == h + "." + p + "." + s
      && Decode(s).Some? && j.verify(publicKey, Decode(s).value, j.utf8(h + "." + p))
      && Decode(p).Some? && j.loads(Decode(p).value) == Some(Verify(j, token, publicKey).value)
  {
    var parts := SplitDots(token);
    JoinSplit(token);
    assert parts[1..][1..] == [parts[2]];
    assert JoinDots(parts[1..]) == parts[1] + "." + parts[2];
    DotsRegroup(parts[0], parts[1], parts[2]);
    assert NoDot(parts[0]) && NoDot(parts[1]) && NoDot(parts[2]);
  }

  /** Different claims never share a token. */
  lemma MintIsInjective(j: Jose, a: Claims, b: Claims, privateKey: Key, publicKey: Key)
    requires Sound(j, privateKey, publicKey) && Mint(j, a, privateKey) == Mint(j, b, privateKey)
    ensures a == b
  {
    VerifyInvertsMint(j, a, privateKey, publicKey);
    VerifyInvertsMint(j, b, privateKey, publicKey);
  }
}
