/** The three canonical texts that clients sign. */
module SigningText {
  import opened Types
  import opened TextEncodings

  /** What a signature covers, as a tuple. `bye` tells a BYE from a RESPONSE; an absent
      param is the empty byte string. */
  datatype Message =
    | HelloMessage(server: string, client: ClientKey, timestamp: i64, helloNonce: Bytes)
    | ProofMessage(bye: bool, server: string, client: ClientKey, nonce: Bytes, interval: u32, expiresAt: i64,
                   param: Bytes)

  datatype Kind = HelloKind | ResponseKind | ByeKind

  function KindName(k: Kind): string {
    match k
    case HelloKind => "hello"
    case ResponseKind => "response"
    case ByeKind => "bye"
  }

  const PREFIX := "signedpulse:v2:"

  function Head(k: Kind, server: string): string {
    PREFIX + KindName(k) + "\nserver_id=" + server
  }

  /** One more line: a label and a value. */
  function Field(text: string, tag: string, value: string): string {
    text + "\n" + (tag + value)
  }

  function HelloPayload(server: string, client: string, timestamp: i64, helloNonce64: string): string {
    Field(Field(Field(Head(HelloKind, server), "client_id=", client),
                "timestamp=", Decimal(timestamp)),
          "hello_nonce=", helloNonce64)
  }

  function ProofPayload(k: Kind, server: string, client: string, nonce64: string, interval: u32, expiresAt: i64,
                        param64: string): string
  {
    Field(Field(Field(Field(Field(Head(k, server), "client_id=", client),
                            "nonce=", nonce64),
                      "interval=", Decimal(interval)),
                "expires_at=", Decimal(expiresAt)),
          "param=", param64)
  }

  function ResponsePayload(server: string, client: string, nonce64: string, interval: u32, expiresAt: i64,
                           param64: string): string
  {
    ProofPayload(ResponseKind, server, client, nonce64, interval, expiresAt, param64)
  }

  function ByePayload(server: string, client: string, nonce64: string, interval: u32, expiresAt: i64,
                      param64: string): string
  {
    ProofPayload(ByeKind, server, client, nonce64, interval, expiresAt, param64)
  }

  /** The signed text of a message, as both peers build it. */
  function Text(m: Message): string {
    match m
    case HelloMessage(server, client, timestamp, helloNonce) =>
      HelloPayload(server, client, timestamp, Base64(helloNonce))
    case ProofMessage(bye, server, client, nonce, interval, expiresAt, param) =>
      if bye then ByePayload(server, client, Base64(nonce), interval, expiresAt, Base64(param))
      else ResponsePayload(server, client, Base64(nonce), interval, expiresAt, Base64(param))
  }

  // ----- The texts, line by line -----

  /** Lines with a newline between each two. */
  function Joined(lines: seq<string>): string {
    if lines == [] then ""
    else if |lines| == 1 then lines[0]
    else Joined(lines[..|lines| - 1]) + "\n" + lines[|lines| - 1]
  }

  lemma FieldJoins(lines: seq<string>, text: string, tag: string, value: string)
    requires lines != [] && text == Joined(lines)
    ensures Field(text, tag, value) == Joined(lines + [tag + value])
  {
    assert (lines + [tag + value])[..|lines|] == lines;
    assert text + ("\n" + (tag + value)) == text + "\n" + (tag + value);
  }

  lemma HeadJoins(k: Kind, first: string, server: string)
    requires first == (match k case HelloKind => "signedpulse:v2:hello" case ResponseKind => "signedpulse:v2:response"
                               case ByeKind => "signedpulse:v2:bye")
    ensures Head(k, server) == Joined([first, "server_id=" + server])
  {
    FirstLine(k, first);
    FieldJoins([first], first, "server_id=", server);
    assert [first] + ["server_id=" + server] == [first, "server_id=" + server];
    assert "\nserver_id=" == "\n" + "server_id=";
    assert first + "\nserver_id=" + server == Field(first, "server_id=", server);
  }

  lemma FirstLine(k: Kind, first: string)
    requires first == (match k case HelloKind => "signedpulse:v2:hello" case ResponseKind => "signedpulse:v2:response"
                               case ByeKind => "signedpulse:v2:bye")
    ensures PREFIX + KindName(k) == first
  {
    match k {
      case HelloKind => assert "signedpulse:v2:" + "hello" == "signedpulse:v2:hello";
      case ResponseKind => assert "signedpulse:v2:" + "response" == "signedpulse:v2:response";
      case ByeKind => assert "signedpulse:v2:" + "bye" == "signedpulse:v2:bye";
    }
  }

  /** The text of a HELLO. */
  lemma HelloTextIs(server: string, client: ClientKey, timestamp: i64, helloNonce: Bytes)
    ensures Text(HelloMessage(server, client, timestamp, helloNonce))
         == Joined(["signedpulse:v2:hello", "server_id=" + server, "client_id=" + client,
                    "timestamp=" + Decimal(timestamp), "hello_nonce=" + Base64(helloNonce)])
  {
    var first, s, c, t := "signedpulse:v2:hello", "server_id=" + server, "client_id=" + client,
                          "timestamp=" + Decimal(timestamp);
    var a := Head(HelloKind, server);
    HeadJoins(HelloKind, first, server);
    FieldJoins([first, s], a, "client_id=", client);
    assert [first, s] + [c] == [first, s, c];
    var a1 := Field(a, "client_id=", client);
    FieldJoins([first, s, c], a1, "timestamp=", Decimal(timestamp));
    assert [first, s, c] + [t] == [first, s, c, t];
    FieldJoins([first, s, c, t], Field(a1, "timestamp=", Decimal(timestamp)), "hello_nonce=", Base64(helloNonce));
    var n := "hello_nonce=" + Base64(helloNonce);
    assert [first, s, c, t] + [n] == [first, s, c, t, n];
  }

  /** Seven lines, of which the first tells a RESPONSE from a BYE. */
  lemma ProofTextJoins(k: Kind, first: string, server: string, client: ClientKey, nonce64: string, interval: u32,
                       expiresAt: i64, param64: string)
    requires Head(k, server) == Joined([first, "server_id=" + server])
    ensures ProofPayload(k, server, client, nonce64, interval, expiresAt, param64)
         == Joined([first, "server_id=" + server, "client_id=" + client, "nonce=" + nonce64,
                    "interval=" + Decimal(interval), "expires_at=" + Decimal(expiresAt), "param=" + param64])
  {
    var s, c, n, i, e := "server_id=" + server, "client_id=" + client, "nonce=" + nonce64,
                         "interval=" + Decimal(interval), "expires_at=" + Decimal(expiresAt);
    var a := Head(k, server);
    FieldJoins([first, s], a, "client_id=", client);
    assert [first, s] + [c] == [first, s, c];
    var a1 := Field(a, "client_id=", client);
    FieldJoins([first, s, c], a1, "nonce=", nonce64);
    assert [first, s, c] + [n] == [first, s, c, n];
    var a2 := Field(a1, "nonce=", nonce64);
    FieldJoins([first, s, c, n], a2, "interval=", Decimal(interval));
    assert [first, s, c, n] + [i] == [first, s, c, n, i];
    var a3 := Field(a2, "interval=", Decimal(interval));
    FieldJoins([first, s, c, n, i], a3, "expires_at=", Decimal(expiresAt));
    assert [first, s, c, n, i] + [e] == [first, s, c, n, i, e];
    FieldJoins([first, s, c, n, i, e], Field(a3, "expires_at=", Decimal(expiresAt)), "param=", param64);
    assert [first, s, c, n, i, e] + ["param=" + param64] == [first, s, c, n, i, e, "param=" + param64];
  }

  /** The text of a RESPONSE or a BYE. */
  lemma ProofTextIs(bye: bool, server: string, client: ClientKey, nonce: Bytes, interval: u32, expiresAt: i64,
                    param: Bytes)
    ensures Text(ProofMessage(bye, server, client, nonce, interval, expiresAt, param))
         == Joined([if bye then "signedpulse:v2:bye" else "signedpulse:v2:response", "server_id=" + server,
                    "client_id=" + client, "nonce=" + Base64(nonce), "interval=" + Decimal(interval),
                    "expires_at=" + Decimal(expiresAt), "param=" + Base64(param)])
  {
    if bye {
      HeadJoins(ByeKind, "signedpulse:v2:bye", server);
      ProofTextJoins(ByeKind, "signedpulse:v2:bye", server, client, Base64(nonce), interval, expiresAt, Base64(param));
    } else {
      HeadJoins(ResponseKind, "signedpulse:v2:response", server);
      ProofTextJoins(ResponseKind, "signedpulse:v2:response", server, client, Base64(nonce), interval, expiresAt,
                     Base64(param));
    }
  }

  // ----- Taking the text apart from its end -----

  /** The last newline splits a text into all but its last line and its last line. */
  lemma LastLine(a: string, b: string, x: string, y: string)
    requires a + "\n" + x == b + "\n" + y && NewlineFree(x) && NewlineFree(y)
    ensures a == b && x == y
  {
    var s := a + "\n" + x;
    assert s[|a|] == '\n' && s[|b|] == '\n';
    assert forall i :: |a| < i < |s| ==> s[i] == x[i - |a| - 1];
    assert forall i :: |b| < i < |s| ==> s[i] == y[i - |b| - 1];
    assert |a| == |b|;
    assert a == s[..|a|] && b == s[..|b|] && x == s[|a| + 1..] && y == s[|b| + 1..];
  }

  lemma FieldInjective(a: string, b: string, tag: string, v: string, w: string)
    requires Field(a, tag, v) == Field(b, tag, w)
    requires NewlineFree(tag) && NewlineFree(v) && NewlineFree(w)
    ensures a == b && v == w
  {
    LastLine(a, b, tag + v, tag + w);
    assert v == (tag + v)[|tag|..] && w == (tag + w)[|tag|..];
  }

  /** The character that tells the kinds apart. */
  function KindLetter(k: Kind): char {
    KindName(k)[0]
  }

  lemma HeadLetter(k: Kind, server: string)
    ensures |Head(k, server)| > 15 && Head(k, server)[15] == KindLetter(k)
  {
    assert |PREFIX| == 15;
  }

  lemma HeadInjective(k: Kind, s: string, t: string)
    requires Head(k, s) == Head(k, t)
    ensures s == t
  {
    var front := PREFIX + KindName(k) + "\nserver_id=";
    assert s == Head(k, s)[|front|..] && t == Head(k, t)[|front|..];
  }

  lemma HelloLetter(server: string, client: string, timestamp: i64, nonce64: string)
    ensures var text := HelloPayload(server, client, timestamp, nonce64);
            |text| > 15 && text[15] == KindLetter(HelloKind)
  {
    HeadLetter(HelloKind, server);
  }

  lemma ProofLetter(k: Kind, server: string, client: string, nonce64: string, interval: u32, expiresAt: i64,
                    param64: string)
    ensures var text := ProofPayload(k, server, client, nonce64, interval, expiresAt, param64);
            |text| > 15 && text[15] == KindLetter(k)
  {
    HeadLetter(k, server);
  }

  // ----- Injectivity -----

  lemma HelloPayloadInjective(s1: string, c1: string, t1: i64, n1: string, s2: string, c2: string, t2: i64, n2: string)
    requires HelloPayload(s1, c1, t1, n1) == HelloPayload(s2, c2, t2, n2)
    requires NewlineFree(c1) && NewlineFree(c2) && NewlineFree(n1) && NewlineFree(n2)
    ensures s1 == s2 && c1 == c2 && t1 == t2 && n1 == n2
  {
    var a, b := Head(HelloKind, s1), Head(HelloKind, s2);
    var a1, b1 := Field(a, "client_id=", c1), Field(b, "client_id=", c2);
    var a2, b2 := Field(a1, "timestamp=", Decimal(t1)), Field(b1, "timestamp=", Decimal(t2));
    FieldInjective(a2, b2, "hello_nonce=", n1, n2);
    FieldInjective(a1, b1, "timestamp=", Decimal(t1), Decimal(t2));
    FieldInjective(a, b, "client_id=", c1, c2);
    DecimalInjective(t1, t2);
    HeadInjective(HelloKind, s1, s2);
  }

  lemma ProofPayloadInjective(
    k1: Kind, s1: string, c1: string, n1: string, i1: u32, e1: i64, p1: string,
    k2: Kind, s2: string, c2: string, n2: string, i2: u32, e2: i64, p2: string)
    requires ProofPayload(k1, s1, c1, n1, i1, e1, p1) == ProofPayload(k2, s2, c2, n2, i2, e2, p2)
    requires NewlineFree(c1) && NewlineFree(c2) && NewlineFree(n1) && NewlineFree(n2) && NewlineFree(p1)
    requires NewlineFree(p2)
    ensures k1 == k2 && s1 == s2 && c1 == c2 && n1 == n2 && i1 == i2 && e1 == e2 && p1 == p2
  {
    var a, b := Head(k1, s1), Head(k2, s2);
    var a1, b1 := Field(a, "client_id=", c1), Field(b, "client_id=", c2);
    var a2, b2 := Field(a1, "nonce=", n1), Field(b1, "nonce=", n2);
    var a3, b3 := Field(a2, "interval=", Decimal(i1)), Field(b2, "interval=", Decimal(i2));
    var a4, b4 := Field(a3, "expires_at=", Decimal(e1)), Field(b3, "expires_at=", Decimal(e2));
    FieldInjective(a4, b4, "param=", p1, p2);
    FieldInjective(a3, b3, "expires_at=", Decimal(e1), Decimal(e2));
    FieldInjective(a2, b2, "interval=", Decimal(i1), Decimal(i2));
    FieldInjective(a1, b1, "nonce=", n1, n2);
    FieldInjective(a, b, "client_id=", c1, c2);
    DecimalInjective(i1, i2);
    DecimalInjective(e1, e2);
    HeadLetter(k1, s1);
    HeadLetter(k2, s2);
    HeadInjective(k1, s1, s2);
  }

  /** Equal texts mean equal messages: same kind, same server, same fields. The server id
      may be any text at all; the client key must not contain a newline, as hex keys do not. */
  lemma TextInjective(m: Message, n: Message)
    requires Text(m) == Text(n) && NewlineFree(m.client) && NewlineFree(n.client)
    ensures m == n
  {
    match (m, n) {
      case (HelloMessage(s1, c1, t1, n1), HelloMessage(s2, c2, t2, n2)) =>
        HelloPayloadInjective(s1, c1, t1, Base64(n1), s2, c2, t2, Base64(n2));
        Base64Injective(n1, n2);
      case (ProofMessage(b1, s1, c1, n1, i1, e1, p1), ProofMessage(b2, s2, c2, n2, i2, e2, p2)) =>
        ProofPayloadInjective(if b1 then ByeKind else ResponseKind, s1, c1, Base64(n1), i1, e1, Base64(p1),
                              if b2 then ByeKind else ResponseKind, s2, c2, Base64(n2), i2, e2, Base64(p2));
        Base64Injective(n1, n2);
        Base64Injective(p1, p2);
      case (HelloMessage(s1, c1, t1, n1), ProofMessage(b2, s2, c2, n2, i2, e2, p2)) =>
        HelloLetter(s1, c1, t1, Base64(n1));
        ProofLetter(if b2 then ByeKind else ResponseKind, s2, c2, Base64(n2), i2, e2, Base64(p2));
      case (ProofMessage(b1, s1, c1, n1, i1, e1, p1), HelloMessage(s2, c2, t2, n2)) =>
        HelloLetter(s2, c2, t2, Base64(n2));
        ProofLetter(if b1 then ByeKind else ResponseKind, s1, c1, Base64(n1), i1, e1, Base64(p1));
    }
  }

  lemma FieldMoves(k: Kind, server: string, tag: string, v: string, w: string)
    ensures Field(Head(k, server), tag, Field(v, tag, w)) == Field(Head(k, Field(server, tag, v)), tag, w)
  {
    var h := PREFIX + KindName(k) + "\nserver_id=";
    assert h + Field(server, tag, v) == Field(h + server, tag, v);
    assert Field(h + server, tag, v + ("\n" + (tag + w))) == Field(h + server, tag, v) + ("\n" + (tag + w));
    assert Field(v, tag, w) == v + ("\n" + (tag + w));
  }

  /** A newline in the client key would let the texts for two servers coincide. */
  lemma NewlineInClientIsAmbiguous(s: string, c: string, d: string, timestamp: i64, nonce: Bytes)
    ensures Text(HelloMessage(s, Field(c, "client_id=", d), timestamp, nonce))
         == Text(HelloMessage(Field(s, "client_id=", c), d, timestamp, nonce))
  {
    FieldMoves(HelloKind, s, "client_id=", c, d);
  }

  /** Checking a signature on the text is the same as checking that the client signed the
      tuple: this is what lets the handshake model treat signed messages as tuples. */
  lemma SignedTextIsSignedTuple(signed: set<Message>, m: Message)
    requires NewlineFree(m.client) && forall x :: x in signed ==> NewlineFree(x.client)
    ensures m in signed <==> Text(m) in (set x | x in signed :: Text(x))
  {
    if Text(m) in (set x | x in signed :: Text(x)) {
      var x :| x in signed && Text(x) == Text(m);
      TextInjective(x, m);
    }
  }
}
