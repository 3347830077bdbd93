/** The SCRAM-SHA-256 client of scram.go, and the server of RFC 5802 it talks to. */
module Scram {
  import opened Wrappers
  import opened Messages
  import opened Decimal
  import opened KeyDerivation
  import opened ScramText

  datatype ScramError = NonceMismatch | MissingFields | BadIterations | BadSalt | MissingVerifier | SignatureMismatch

  /** Go strings are byte strings; a character of the model stands for one byte. */
  function AsBytes(s: string): (r: seq<byte>)
    ensures |r| == |s| && forall i :: 0 <= i < |s| && s[i] as int < 256 ==> r[i] == s[i] as int
  {
    seq(|s|, i requires 0 <= i < |s| => s[i] as int % 256)
  }

  // ----- the client's messages

  function Bare(username: string, nonce: string): string {
    "n=" + Escape(username) + ",r=" + nonce
  }

  function WithoutProof(nonce: string): string {
    "c=biws,r=" + nonce
  }

  function AuthMessage(bare: string, serverFirst: string, withoutProof: string): string {
    bare + "," + serverFirst + "," + withoutProof
  }

  ghost function ClientKey(c: Crypto, salted: seq<byte>): seq<byte> {
    c.hmac(salted, AsBytes("Client Key"))
  }

  ghost function ServerKey(c: Crypto, salted: seq<byte>): seq<byte> {
    c.hmac(salted, AsBytes("Server Key"))
  }

  ghost function Proof(c: Crypto, salted: seq<byte>, auth: string): seq<byte>
    requires Sound(c)
  {
    var clientKey := ClientKey(c, salted);
    XorSeq(clientKey, c.hmac(c.hash(clientKey), AsBytes(auth)))
  }

  ghost function Signature(c: Crypto, serverKey: seq<byte>, auth: string): seq<byte> {
    c.hmac(serverKey, AsBytes(auth))
  }

  /** The client-final message and the server signature that the client will insist on. */
  ghost function ClientReply(c: Crypto, bare: string, clientNonce: string, password: seq<byte>, serverFirst: string)
    : Result<(string, seq<byte>), ScramError>
    requires Sound(c)
  {
    var attrs := Attrs(serverFirst);
    var nonce := Get(attrs, "r");
    if nonce == "" || !(clientNonce <= nonce) then Err(NonceMismatch)
    else if Get(attrs, "s") == "" || Get(attrs, "i") == "" then Err(MissingFields)
    else
      var iterations := Digits(Get(attrs, "i"), 0);
      var salt := c.decode(Get(attrs, "s"));
      if iterations.None? then Err(BadIterations)
      else if salt.None? then Err(BadSalt)
      else Ok(Answer(c, bare, password, serverFirst, nonce, salt.value, iterations.value))
  }

  ghost function Answer(c: Crypto, bare: string, password: seq<byte>, serverFirst: string, nonce: string,
                        salt: seq<byte>, iterations: int): (string, seq<byte>)
    requires Sound(c)
  {
    var salted := Salted(c, password, salt, iterations);
    var auth := AuthMessage(bare, serverFirst, WithoutProof(nonce));
    (WithoutProof(nonce) + ",p=" + c.encode(Proof(c, salted, auth)), Signature(c, ServerKey(c, salted), auth))
  }

  function Verified(c: Crypto, signature: seq<byte>, serverFinal: string): Result<(), ScramError> {
    var verifier := Get(Attrs(serverFinal), "v");
    if verifier == "" || signature == [] then Err(MissingVerifier)
    else if verifier != c.encode(signature) then Err(SignatureMismatch)
    else Ok(())
  }

  class ScramClient {
    var username: string
    var clientNonce: string
    var clientFirstBare: string
    var serverSignature: seq<byte>

    constructor (c: Crypto, name: string, random: seq<byte>)
      ensures username == name && clientNonce == c.encode(random) && clientFirstBare == "" && serverSignature == []
    {
      username := name;
      clientNonce := c.encode(random);
      clientFirstBare := "";
      serverSignature := [];
    }

    method ClientFirstMessage() returns (message: string)
      modifies this`clientFirstBare
      ensures clientFirstBare == Bare(username, clientNonce) && message == "n,," + clientFirstBare
    {
      clientFirstBare := "n=" + Escape(username) + ",r=" + clientNonce;
      message := "n,," + clientFirstBare;
    }

    method HandleServerFirst(c: Crypto, password: seq<byte>, serverFirst: string) returns (r: Result<string, ScramError>)
      requires Sound(c)
      modifies this`serverSignature
      ensures var reply := ClientReply(c, clientFirstBare, clientNonce, password, serverFirst);
        if reply.Err? then r == Err(reply.error) && serverSignature == old(serverSignature)
        else r == Ok(reply.value.0) && serverSignature == reply.value.1
    {
      var attrs := ParseScramAttrs(serverFirst);
      var nonce := Get(attrs, "r");
      var saltB64 := Get(attrs, "s");
      var iterStr := Get(attrs, "i");
      if nonce == "" || !(clientNonce <= nonce) {
        return Err(NonceMismatch);
      }
      if saltB64 == "" || iterStr == "" {
        return Err(MissingFields);
      }
      var iterations := ParseInt(iterStr);
      if iterations.None? {
        return Err(BadIterations);
      }
      var salt := c.decode(saltB64);
      if salt.None? {
        return Err(BadSalt);
      }
      var salted := Pbkdf2Sha256(c, password, salt.value, iterations.value, HASH_SIZE);
      OneBlockIsSalted(c, password, salt.value, iterations.value);
      var clientKey := c.hmac(salted, AsBytes("Client Key"));
      var storedKey := c.hash(clientKey);
      var clientFinalWithoutProof := "c=biws,r=" + nonce;
      var authMessage := clientFirstBare + "," + serverFirst + "," + clientFinalWithoutProof;
      var clientSignature := c.hmac(storedKey, AsBytes(authMessage));
      var clientProof := XorBytes(clientKey, clientSignature);
      var serverKey := c.hmac(salted, AsBytes("Server Key"));
      serverSignature := c.hmac(serverKey, AsBytes(authMessage));
      return Ok(clientFinalWithoutProof + ",p=" + c.encode(clientProof[..]));
    }

    method VerifyServerFinal(c: Crypto, serverFinal: string) returns (r: Result<(), ScramError>)
      ensures r == Verified(c, serverSignature, serverFinal)
    {
      var attrs := ParseScramAttrs(serverFinal);
      var verifier := Get(attrs, "v");
      if verifier == "" || |serverSignature| == 0 {
        return Err(MissingVerifier);
      }
      var expected := c.encode(serverSignature);
      if verifier != expected {
        return Err(SignatureMismatch);
      }
      return Ok(());
    }
  }

  // ----- the server of RFC 5802

  /** The first n iterates of section 2.2 of RFC 5802. */
  ghost function Iterates(c: Crypto, password: seq<byte>, block: seq<byte>, n: nat): (us: seq<seq<byte>>)
    requires n > 0
    ensures |us| == n && AreIterates(c, password, block, us)
  {
    if n == 1 then [c.hmac(password, block)]
    else
      var before := Iterates(c, password, block, n - 1);
      before + [c.hmac(password, before[n - 2])]
  }

  /** SaltedPassword := Hi(password, salt, i), with INT(1) behind the salt. */
  ghost function SaltedPassword(c: Crypto, password: seq<byte>, salt: seq<byte>, iterations: nat): seq<byte>
    requires Sound(c) && iterations > 0
  {
    var us := Iterates(c, password, salt + [0, 0, 0, 1], iterations);
    IteratesHaveSize(c, password, salt + [0, 0, 0, 1], us);
    XorAll(us)
  }

  /** What a server keeps of a password. */
  datatype Account = Account(salt: seq<byte>, iterations: nat, storedKey: seq<byte>, serverKey: seq<byte>)

  ghost function AccountOf(c: Crypto, password: seq<byte>, salt: seq<byte>, iterations: nat): Account
    requires Sound(c) && iterations > 0
  {
    var salted := SaltedPassword(c, password, salt, iterations);
    Account(salt, iterations, c.hash(c.hmac(salted, AsBytes("Client Key"))), c.hmac(salted, AsBytes("Server Key")))
  }

  /** The user name, the nonce and the bare message of a client-first message. */
  function ReadClientFirst(message: string): Option<(string, string, string)> {
    if |message| < 5 || message[..5] != "n,,n=" then None
    else
      var attrs := Attrs(message[3..]);
      var name := Unescape(Get(attrs, "n"));
      if name.None? then None else Some((name.value, Get(attrs, "r"), message[3..]))
  }

  function ServerFirst(c: Crypto, account: Account, nonce: string): string {
    Attr('r', nonce) + "," + (Attr('s', c.encode(account.salt)) + "," + Attr('i', Dec(account.iterations)))
  }

  function UpToLastComma(s: string): string {
    if s == "" || s[|s| - 1] == ',' then (if s == "" then "" else s[..|s| - 1]) else UpToLastComma(s[..|s| - 1])
  }

  /** The server checks the nonce and the proof against its account, and proves itself. */
  ghost function ServerFinal(c: Crypto, account: Account, bare: string, nonce: string,
        clientFinal: string): Option<string>
    requires Sound(c)
  {
    var attrs := Attrs(clientFinal);
    var proof := c.decode(Get(attrs, "p"));
    if UpToLastComma(clientFinal) != "c=biws,r=" + nonce || proof.None? || |proof.value| != HASH_SIZE then None
    else
      var auth := bare + "," + ServerFirst(c, account, nonce) + "," + UpToLastComma(clientFinal);
      var clientKey := XorSeq(proof.value, c.hmac(account.storedKey, AsBytes(auth)));
      if c.hash(clientKey) != account.storedKey then None
      else Some(Attr('v', c.encode(c.hmac(account.serverKey, AsBytes(auth)))))
  }

  // ----- completeness

  /** The server reads the user's name and the nonce, whatever the name is. */
  lemma NameArrives(username: string, nonce: string)
    requires ',' !in nonce
    ensures ReadClientFirst("n,," + Bare(username, nonce)) == Some((username, nonce, Bare(username, nonce)))
  {
    var bare := Bare(username, nonce);
    var message := "n,," + bare;
    assert message[..5] == "n,,n=" && message[3..] == bare;
    EscapeRoundTrip(username);
    TwoAttrs('n', Escape(username), 'r', nonce);
    assert bare == Attr('n', Escape(username)) + "," + Attr('r', nonce);
  }

  lemma DecHasNoComma(n: nat)
    ensures ',' !in Dec(n) && Dec(n) != ""
  {
    DecValue(n);
  }

  /** The client finds the server's nonce, salt and iteration count; it gives up on an empty
      salt only. */
  lemma ServerFirstIsUnderstood(c: Crypto, bare: string, clientNonce: string, password: seq<byte>, account: Account,
        nonce: string)
    requires Sound(c) && nonce != "" && ',' !in nonce && clientNonce <= nonce
    ensures ClientReply(c, bare, clientNonce, password, ServerFirst(c, account, nonce)) ==
      if account.salt == [] then Err(MissingFields)
      else Ok(Answer(c, bare, password, ServerFirst(c, account, nonce), nonce, account.salt, ToInt64(account.iterations)))
  {
    DecHasNoComma(account.iterations);
    EncodedIsNotEmpty(c, account.salt);
    ThreeAttrs('r', nonce, 's', c.encode(account.salt), 'i', Dec(account.iterations));
    ParseIntOfDec(account.iterations);
    assert c.decode(c.encode(account.salt)) == Some(account.salt);
  }

  lemma {:induction false} LastCommaIs(s: string, t: string)
    requires ',' !in t
    ensures UpToLastComma(s + "," + t) == s
    decreases |t|
  {
    var whole := s + "," + t;
    if t == "" {
      assert whole[..|whole| - 1] == s;
    } else {
      assert whole[..|whole| - 1] == s + "," + t[..|t| - 1];
      LastCommaIs(s, t[..|t| - 1]);
    }
  }

  /** A client-final message is taken apart into its nonce, its proof and what was signed. */
  lemma ClientFinalIsUnderstood(c: Crypto, nonce: string, proof: seq<byte>)
    requires Sound(c) && ',' !in nonce
    ensures var message := WithoutProof(nonce) + ",p=" + c.encode(proof);
      && Get(Attrs(message), "c") == "biws" && Get(Attrs(message), "r") == nonce
      && Get(Attrs(message), "p") == c.encode(proof)
      && UpToLastComma(message) == WithoutProof(nonce)
  {
    var p := c.encode(proof);
    var message := WithoutProof(nonce) + ",p=" + p;
    assert message == Attr('c', "biws") + "," + (Attr('r', nonce) + "," + Attr('p', p));
    ThreeAttrs('c', "biws", 'r', nonce, 'p', p);
    assert message == WithoutProof(nonce) + "," + Attr('p', p);
    LastCommaIs(WithoutProof(nonce), Attr('p', p));
  }

  /** The proof of a client that knows the password is accepted. */
  lemma ProofIsAccepted(c: Crypto, salted: seq<byte>, auth: string)
    requires Sound(c)
    ensures |Proof(c, salted, auth)| == HASH_SIZE
    ensures var storedKey := c.hash(ClientKey(c, salted));
      XorSeq(Proof(c, salted, auth), c.hmac(storedKey, AsBytes(auth))) == ClientKey(c, salted)
  {
    var clientKey := ClientKey(c, salted);
    XorSeqTwice(clientKey, c.hmac(c.hash(clientKey), AsBytes(auth)));
  }

  /** Of all verifiers, the client accepts the signature it computed and no other. */
  lemma OnlyTheSignatureIsAccepted(c: Crypto, expected: seq<byte>, signature: seq<byte>)
    requires Sound(c) && expected != []
    ensures Verified(c, expected, Attr('v', c.encode(signature))) ==
      if signature == expected then Ok(()) else Err(if signature == [] then MissingVerifier else SignatureMismatch)
  {
    EncodedIsNotEmpty(c, signature);
    OneAttr('v', c.encode(signature));
    EncodedIsNotEmpty(c, expected);
    assert c.decode(c.encode(signature)) == Some(signature);
    assert c.decode(c.encode(expected)) == Some(expected);
  }

  /** The client salts the password as the RFC says. */
  lemma SaltedIsStandard(c: Crypto, password: seq<byte>, salt: seq<byte>, iterations: nat)
    requires Sound(c) && iterations > 0
    ensures Salted(c, password, salt, iterations) == SaltedPassword(c, password, salt, iterations)
  {
    BlockNumber(salt, 0, 0, 0, 1);
    HiIsXorOfIterates(c, password, Block(salt, 1), Iterates(c, password, Block(salt, 1), iterations));
  }

  lemma ServerAnswers(c: Crypto, password: seq<byte>, salt: seq<byte>, iterations: nat, bare: string, nonce: string)
    requires Sound(c) && ',' !in nonce && 0 < iterations < UINT64_LIMIT / 2
    ensures var account := AccountOf(c, password, salt, iterations);
      var (final, signature) := Answer(c, bare, password, ServerFirst(c, account, nonce), nonce, salt,
            ToInt64(iterations));
      ServerFinal(c, account, bare, nonce, final) == Some(Attr('v', c.encode(signature))) && |signature| == HASH_SIZE
  {
    hide Attrs, UpToLastComma, XorSeq, Hi;
    var account := AccountOf(c, password, salt, iterations);
    var salted := Salted(c, password, salt, iterations);
    var auth := AuthMessage(bare, ServerFirst(c, account, nonce), WithoutProof(nonce));
    SaltedIsStandard(c, password, salt, iterations);
    ClientFinalIsUnderstood(c, nonce, Proof(c, salted, auth));
    ProofIsAccepted(c, salted, auth);
    assert c.decode(c.encode(Proof(c, salted, auth))) == Some(Proof(c, salted, auth));
  }

  /** An honest exchange, for every user name, password and nonce: the client answers exactly
      when the salt is not empty, and then a server that keeps the account of the same password
      accepts the proof, and the client accepts the verifier of that server. */
  lemma HonestExchangeSucceeds(c: Crypto, username: string, password: seq<byte>, random: seq<byte>,
                               salt: seq<byte>, iterations: nat, serverNonce: string)
    requires Sound(c) && random != [] && ',' !in serverNonce && 0 < iterations < UINT64_LIMIT / 2
    ensures
      var clientNonce := c.encode(random);
      var account := AccountOf(c, password, salt, iterations);
      var bare := Bare(username, clientNonce);
      var nonce := clientNonce + serverNonce;
      var reply := ClientReply(c, bare, clientNonce, password, ServerFirst(c, account, nonce));
      && ReadClientFirst("n,," + bare) == Some((username, clientNonce, bare))
      && (reply.Ok? <==> salt != [])
      && (reply.Ok? ==>
            var final := ServerFinal(c, account, bare, nonce, reply.value.0);
            final.Some? && Verified(c, reply.value.1, final.value).Ok?)
  {
    var clientNonce := c.encode(random);
    var account := AccountOf(c, password, salt, iterations);
    var bare, nonce := Bare(username, clientNonce), clientNonce + serverNonce;
    EncodedIsNotEmpty(c, random);
    NameArrives(username, clientNonce);
    ServerFirstIsUnderstood(c, bare, clientNonce, password, account, nonce);
    if salt != [] {
      ServerAnswers(c, password, salt, iterations, bare, nonce);
      var signature := Answer(c, bare, password, ServerFirst(c, account, nonce), nonce, salt, ToInt64(iterations)).1;
      OnlyTheSignatureIsAccepted(c, signature, signature);
    }
  }

  /** Which server-first messages the client refuses, and for what, in this order. */
  lemma RefusalsAreExact(c: Crypto, bare: string, clientNonce: string, password: seq<byte>, nonce: string, salt: string,
                         count: string)
    requires Sound(c) && ',' !in nonce && ',' !in salt && ',' !in count
    ensures var message := Attr('r', nonce) + "," + (Attr('s', salt) + "," + Attr('i', count));
      var r := ClientReply(c, bare, clientNonce, password, message);
      if nonce == "" || !(clientNonce <= nonce) then r == Err(NonceMismatch)
      else if salt == "" || count == "" then r == Err(MissingFields)
      else if exists k :: 0 <= k < |count| && !('0' <= count[k] <= '9') then r == Err(BadIterations)
      else if c.decode(salt).None? then r == Err(BadSalt)
      else r.Ok?
  {
    ThreeAttrs('r', nonce, 's', salt, 'i', count);
    DigitsOnly(count, 0);
  }

  /** The client does not answer a server whose nonce does not extend its own, and accepts no
      verifier before it has answered. */
  lemma NonceAndOrderAreChecked(c: Crypto, bare: string, clientNonce: string, password: seq<byte>, account: Account,
                                nonce: string, serverFinal: string)
    requires Sound(c) && ',' !in nonce
    ensures clientNonce <= nonce && nonce != "" <==>
      ClientReply(c, bare, clientNonce, password, ServerFirst(c, account, nonce)) != Err(NonceMismatch)
    ensures Verified(c, [], serverFinal) == Err(MissingVerifier)
  {
    DecHasNoComma(account.iterations);
    ThreeAttrs('r', nonce, 's', c.encode(account.salt), 'i', Dec(account.iterations));
  }
}
