/**
 * The RFB handshake proxy (electron/services/VncBridgeService.ts, `readExactly`, `handshake`,
 * `offerSecurity`, `offerVeNCrypt`). The messages are those of sections 7.1.1 and 7.1.2 of RFC 6143 and
 * of VeNCrypt 0.2. `PhaseOf` reads one peer's half of the conversation from the bytes it sent and
 * received; the bridge is right when, at the moment it starts piping, both peers are in the same phase.
 */
module VncBridge {
  import opened Basics
  import opened JsText
  import opened Vencrypt

  type Bytes = seq<byte>

  // ---- 32-bit integers ----

  function U32(v: nat): (b: Bytes)
    ensures |b| == 4
  {
    [v / 0x100_0000 % 256, v / 0x1_0000 % 256, v / 256 % 256, v % 256]
  }

  function ReadU32(b: Bytes): nat
    requires |b| >= 4
  {
    (b[0] as nat) * 0x100_0000 + (b[1] as nat) * 0x1_0000 + (b[2] as nat) * 256 + (b[3] as nat)
  }

  function EncodeAll(vs: seq<nat>): (b: Bytes)
    ensures |b| == 4 * |vs|
  {
    if vs == [] then [] else U32(vs[0]) + EncodeAll(vs[1..])
  }

  function DecodeAll(b: Bytes): (vs: seq<nat>)
    requires |b| % 4 == 0
    ensures |vs| == |b| / 4
  {
    if b == [] then [] else [ReadU32(b)] + DecodeAll(b[4..])
  }

  /** Dividing drops the low digit, the remainder is it. */
  lemma LowDigit(high: nat, low: nat)
    requires low < 256
    ensures (high * 256 + low) / 256 == high && (high * 256 + low) % 256 == low
  {}

  lemma DivideTwice(v: nat)
    ensures v / 0x1_0000 == v / 256 / 256 && v / 0x100_0000 == v / 256 / 256 / 256
  {}

  lemma U32OfRead(b: Bytes)
    requires |b| == 4
    ensures U32(ReadU32(b)) == b
  {
    var b0: nat, b1: nat, b2: nat, b3: nat := b[0] as nat, b[1] as nat, b[2] as nat, b[3] as nat;
    var v := ReadU32(b);
    assert v == ((b0 * 256 + b1) * 256 + b2) * 256 + b3;
    LowDigit((b0 * 256 + b1) * 256 + b2, b3);
    LowDigit(b0 * 256 + b1, b2);
    LowDigit(b0, b1);
    DivideTwice(v);
    assert b0 % 256 == b0;
    assert U32(v) == [b0, b1, b2, b3];
  }

  lemma {:induction false} EncodeOfDecode(b: Bytes)
    requires |b| % 4 == 0
    ensures EncodeAll(DecodeAll(b)) == b
    decreases |b|
  {
    if b != [] {
      U32OfRead(b[..4]);
      assert ReadU32(b) == ReadU32(b[..4]);
      EncodeOfDecode(b[4..]);
      assert DecodeAll(b)[1..] == DecodeAll(b[4..]);
      assert b == b[..4] + b[4..];
    }
  }

  // ---- versions ----

  function Latin1(b: Bytes): (s: string)
    ensures |s| == |b|
  {
    seq(|b|, i requires 0 <= i < |b| => b[i] as char)
  }

  /** `s.slice(a, b)`. */
  function Slice(s: string, a: nat, b: nat): string
    requires a <= b
  {
    if |s| <= a then [] else if |s| <= b then s[a..] else s[a..b]
  }

  /** RFB 3.7 or later, as far as two `parseInt`s can tell; anything unreadable is not. */
  predicate Modern(version: Bytes) {
    var text := Latin1(version);
    var major, minor := ParseInt(Slice(text, 4, 7)), ParseInt(Slice(text, 8, 11));
    major.Some? && (major.value > 3 || (major.value == 3 && minor.Some? && minor.value >= 7))
  }

  // ---- the conversation, from one peer's side ----

  datatype Phase =
    | Opening                         // versions not exchanged yet
    | Legacy                          // RFB 3.3: the server dictates the security type next
    | AwaitingTypes
    | Refused                         // a reason string comes next
    | ChoosingSecurity(types: Bytes)
    | Negotiating                     // VeNCrypt under way
    | ChoosingSubtype(subtypes: seq<nat>)
    | Authenticating(auth: nat)       // this authentication comes next
    | OtherSubtype(subtype: nat)
    | Violation                       // something the protocol does not allow here

  /** `down` went from server to viewer, `up` from viewer to server. */
  function PhaseOf(down: Bytes, up: Bytes): Phase {
    if |down| < 12 || |up| < 12 then Opening
    else if !Modern(up[..12]) then Legacy
    else AfterVersions(down[12..], up[12..])
  }

  function AfterVersions(down: Bytes, up: Bytes): Phase {
    if down == [] then AwaitingTypes
    else
      var n := down[0] as nat;
      if n == 0 then Refused
      else if |down| < 1 + n then AwaitingTypes
      else if up == [] then ChoosingSecurity(down[1..1 + n])
      else if up[0] !in down[1..1 + n] then Violation
      else if up[0] != SEC_VENCRYPT then Authenticating(up[0])
      else AfterVencrypt(down[1 + n..], up[1..])
  }

  /** Server version, client version, acknowledgement, subtypes, choice. */
  function AfterVencrypt(down: Bytes, up: Bytes): Phase {
    if |down| < 2 || |up| < 2 then Negotiating
    else if down[..2] != [0, 2] || up[..2] != [0, 2] then Violation
    else if |down| < 4 then Negotiating
    else
      var k := down[3] as nat;
      if down[2] != 0 || k == 0 then Violation
      else if |down| < 4 + 4 * k then Negotiating
      else
        var subtypes := DecodeAll(down[4..4 + 4 * k]);
        if |up| < 6 then ChoosingSubtype(subtypes) else AfterChoice(subtypes, ReadU32(up[2..6]), down[4 + 4 * k..])
  }

  function AfterChoice(subtypes: seq<nat>, choice: nat, down: Bytes): Phase {
    if choice !in subtypes then Violation else AfterSubtype(choice, down)
  }

  /** TLS subtypes wait for a go byte; then the inner authentication follows as if in the clear. */
  function AfterSubtype(subtype: nat, down: Bytes): Phase {
    if InnerAuth(subtype).Some? then
      if down == [] then Negotiating else if down[0] == 0 then Violation else Authenticating(InnerAuth(subtype).value)
    else if subtype == SEC_PLAIN then Authenticating(SEC_PLAIN)
    else OtherSubtype(subtype)
  }

  // ---- streams ----

  /** How a stream stops: a normal end hands out what is left, a destroyed one nothing. */
  datatype Closing = Ended | Destroyed

  /** What a read of `len` bytes yields when `s` is all that will ever arrive. */
  function Chunk(s: Bytes, len: nat, closing: Closing): Option<Bytes> {
    if |s| >= len then Some(s[..len]) else if closing.Ended? && s != [] then Some(s) else None
  }

  class Duplex {
    var incoming: Bytes
    const closing: Closing
    var written: Bytes
    ghost var consumed: Bytes

    constructor (incoming: Bytes, closing: Closing)
      ensures this.incoming == incoming && this.closing == closing && written == [] && consumed == []
    {
      this.incoming, this.closing := incoming, closing;
      written, consumed := [], [];
    }

    /** Everything there is to read: what was read and what will be. */
    ghost function Stream(): Bytes
      reads this
    {
      consumed + incoming
    }

    method Write(b: Bytes)
      modifies this`written
      ensures written == old(written) + b
    {
      written := written + b;
    }

    /**
     * Waits for `len` bytes. At the end of the stream a shorter rest is handed out as it is; when nothing
     * is left, or the stream was destroyed, the read throws.
     */
    method ReadExactly(len: nat) returns (chunk: Option<Bytes>)
      requires len > 0
      modifies this`incoming, this`consumed
      ensures chunk == Chunk(old(incoming), len, closing)
      ensures Stream() == old(Stream())
      ensures chunk.Some? ==> consumed == old(consumed) + chunk.value && old(incoming) == chunk.value + incoming
      ensures chunk.Some? ==> 0 < |chunk.value| <= len && (|chunk.value| < len ==> incoming == [])
      ensures chunk.None? ==> consumed == old(consumed) && incoming == old(incoming)
      ensures closing.Destroyed? ==> (chunk.Some? <==> |old(incoming)| >= len)
      ensures closing.Ended? ==> (chunk.Some? <==> old(incoming) != [])
      ensures chunk.Some? && |old(incoming)| >= len ==> |chunk.value| == len
    {
      if |incoming| >= len {
        chunk := Some(incoming[..len]);
        incoming := incoming[len..];
      } else if closing.Ended? && incoming != [] {
        chunk := Some(incoming);
        incoming := [];
      } else {
        return None;
      }
      consumed := consumed + chunk.value;
      assert old(consumed) + (chunk.value + incoming) == consumed + incoming;
    }
  }

  // ---- the bridge ----

  datatype Outcome =
    | PassThrough                       // nothing rewritten
    | Replayed(subtypes: seq<nat>)      // VeNCrypt taken, then offered on to the viewer
    | TakenOver(subtype: nat)           // TLS done here, the viewer sees what runs inside
    | Failed

  /** Lists `types` to the viewer; what it picks has to be among them. */
  method OfferSecurity(client: Duplex, types: Bytes) returns (chosen: Option<byte>)
    requires 0 < |types| < 256
    modifies client
    ensures client.Stream() == old(client.Stream())
    ensures chosen.Some? <==> old(client.incoming) != [] && old(client.incoming)[0] in types
    ensures chosen.Some? ==> client.written == old(client.written) + ([|types|] + types)
    ensures chosen.Some? ==> client.consumed == old(client.consumed) + [chosen.value]
    ensures chosen.Some? ==> old(client.incoming) == [chosen.value] + client.incoming
  {
    client.Write([|types|] + types);
    var c := client.ReadExactly(1);
    if c.None? { return None; }
    assert c.value == [c.value[0]];
    if c.value[0] !in types { return None; }
    return Some(c.value[0]);
  }

  /** Plays a VeNCrypt 0.2 server to the viewer. Whatever two bytes come back as a version pass unseen. */
  method OfferVeNCrypt(client: Duplex, subtypes: seq<nat>) returns (choice: Option<nat>, ghost heard: Bytes)
    requires 0 < |subtypes| < 256
    modifies client
    ensures client.Stream() == old(client.Stream())
    ensures choice.Some? <==> |old(client.incoming)| >= 6
    ensures choice.Some? ==>
      |heard| == 6 && choice.value == ReadU32(heard[2..]) && old(client.incoming) == heard + client.incoming
    ensures choice.Some? ==> client.written == old(client.written) + Offer(EncodeAll(subtypes))
    ensures choice.Some? ==> client.consumed == old(client.consumed) + heard
  {
    heard := [];
    client.Write([0, 2]);
    var echo := client.ReadExactly(2);
    if echo.None? { return None, []; }
    client.Write([0]);
    client.Write([|subtypes|] + EncodeAll(subtypes));
    var answer := client.ReadExactly(4);
    if answer.None? || |answer.value| < 4 { return None, []; }
    heard := echo.value + answer.value;
    choice := Some(ReadU32(answer.value));
  }

  /** What a VeNCrypt 0.2 server sends up to and including its list of subtypes. */
  function Offer(raw: Bytes): Bytes
    requires |raw| % 4 == 0 && |raw| / 4 < 256
  {
    [0, 2] + [0] + ([|raw| / 4] + raw)
  }

  /** `t` starts with such an offer, of at least one subtype. */
  predicate Offers(t: Bytes) {
    |t| >= 4 && t[..2] == [0, 2] && t[2] == 0 && t[3] != 0 && |t| >= 4 + 4 * (t[3] as nat)
  }

  /** Chooses VeNCrypt and settles on version 0.2. */
  method AgreeOnVersion(tcp: Duplex) returns (ok: bool)
    modifies tcp
    ensures tcp.Stream() == old(tcp.Stream())
    ensures ok <==> old(|tcp.incoming| >= 3 && tcp.incoming[..2] == [0, 2] && tcp.incoming[2] == 0)
    ensures ok ==> tcp.written == old(tcp.written) + ([19] + [0, 2])
    ensures ok ==> tcp.consumed == old(tcp.consumed) + [0, 2, 0] && old(tcp.incoming) == [0, 2, 0] + tcp.incoming
  {
    tcp.Write([19]);
    var version := tcp.ReadExactly(2);
    if version.None? || version.value != [0, 2] { return false; }
    tcp.Write([0, 2]);
    var ack := tcp.ReadExactly(1);
    if ack.None? || ack.value[0] != 0 { return false; }
    assert ack.value == [0];
    ok := true;
  }

  /** A count that is not 0, and as many subtypes. */
  predicate ListsSubtypes(t: Bytes) { |t| >= 1 && t[0] != 0 && |t| >= 1 + 4 * (t[0] as nat) }

  method TakeSubtypes(tcp: Duplex) returns (raw: Option<Bytes>)
    modifies tcp`incoming, tcp`consumed
    ensures tcp.Stream() == old(tcp.Stream())
    ensures raw.Some? <==> ListsSubtypes(old(tcp.incoming))
    ensures raw.Some? ==> |raw.value| % 4 == 0 && 0 < |raw.value| / 4 < 256
    ensures raw.Some? ==> tcp.consumed == old(tcp.consumed) + ([|raw.value| / 4] + raw.value)
    ensures raw.Some? ==> old(tcp.incoming) == ([|raw.value| / 4] + raw.value) + tcp.incoming
  {
    var count := tcp.ReadExactly(1);
    if count.None? || count.value[0] == 0 { return None; }
    var n := count.value[0] as nat;
    assert count.value == [n];
    var list := tcp.ReadExactly(4 * n);
    if list.None? || |list.value| < 4 * n { return None; }
    assert |list.value| / 4 == n;
    return list;
  }

  lemma OffersIs(t: Bytes, rest: Bytes)
    requires t == [0, 2, 0] + rest
    ensures Offers(t) <==> ListsSubtypes(rest)
  {
    assert t[3..] == rest;
  }

  lemma OfferIs(raw: Bytes)
    requires |raw| % 4 == 0 && |raw| / 4 < 256
    ensures Offer(raw) == [0, 2, 0] + ([|raw| / 4] + raw)
  {}

  /** VeNCrypt toward the server up to its list of subtypes. */
  method TakeVeNCrypt(tcp: Duplex) returns (subtypes: Option<seq<nat>>, ghost raw: Bytes)
    modifies tcp
    ensures tcp.Stream() == old(tcp.Stream())
    ensures subtypes.Some? <==> Offers(old(tcp.incoming))
    ensures subtypes.Some? ==>
      0 < |subtypes.value| < 256 && |raw| == 4 * |subtypes.value| && subtypes.value == DecodeAll(raw)
    ensures subtypes.Some? ==> tcp.written == old(tcp.written) + ([19] + [0, 2])
    ensures subtypes.Some? ==> tcp.consumed == old(tcp.consumed) + Offer(raw)
    ensures subtypes.Some? ==> old(tcp.incoming) == Offer(raw) + tcp.incoming
  {
    raw := [];
    var ok := AgreeOnVersion(tcp);
    if !ok { return None, []; }
    OffersIs(old(tcp.incoming), tcp.incoming);
    var list := TakeSubtypes(tcp);
    if list.None? { return None, []; }
    raw := list.value;
    OfferIs(raw);
    PlusAssociates(old(tcp.consumed), [0, 2, 0], [|raw| / 4] + raw);
    PlusAssociates([0, 2, 0], [|raw| / 4] + raw, tcp.incoming);
    subtypes := Some(DecodeAll(list.value));
  }

  // ---- what a whole handshake looks like on the wire ----

  /** The parts of a handshake that took VeNCrypt: both versions, the server's types and its raw subtypes. */
  datatype Transcript = Transcript(server: Bytes, viewer: Bytes, types: Bytes, raw: Bytes) {
    predicate Bridged() {
      && Modern(viewer) && 0 < |types| < 256 && NeedsBridge(types)
      && |raw| % 4 == 0 && 0 < |raw| / 4 < 256
    }

    function Subtypes(): seq<nat>
      requires Bridged()
    {
      DecodeAll(raw)
    }

    function FromServer(): Bytes
      requires Bridged()
    {
      server + (([|types|] + types) + Offer(raw))
    }

    function ToServer(choice: Bytes): Bytes {
      viewer + ([19] + ([0, 2] + choice))
    }
  }

  /** What the viewer is shown when VeNCrypt with the subtypes in `raw` is offered to it. */
  function Shown(server: Bytes, raw: Bytes): Bytes
    requires |raw| % 4 == 0 && |raw| / 4 < 256
  {
    server + (([1] + [19]) + Offer(raw))
  }

  lemma VersionsRead(server: Bytes, viewer: Bytes, down: Bytes, up: Bytes)
    requires |server| == 12 && |viewer| == 12 && Modern(viewer)
    ensures PhaseOf(server + down, viewer + up) == AfterVersions(down, up)
  {
    assert (server + down)[12..] == down && (viewer + up)[12..] == up && (viewer + up)[..12] == viewer;
  }

  lemma TypesRead(types: Bytes, down: Bytes, choice: byte, up: Bytes)
    requires 0 < |types| < 256
    ensures AfterVersions(([|types|] + types) + down, [choice] + up) ==
      if choice !in types then Violation
      else if choice != SEC_VENCRYPT then Authenticating(choice)
      else AfterVencrypt(down, up)
  {
    var d, u := ([|types|] + types) + down, [choice] + up;
    assert d[1..1 + |types|] == types && d[1 + |types|..] == down && u[1..] == up;
  }

  lemma OfferParts(raw: Bytes, rest: Bytes)
    requires |raw| % 4 == 0 && 0 < |raw| / 4 < 256
    ensures var s := Offer(raw) + rest;
      Offers(s) && s[3] == |raw| / 4 && s[4..4 + |raw|] == raw && s[4 + |raw|..] == rest
  {
    var s := Offer(raw) + rest;
    assert s[..2] == [0, 2] && s[4..4 + |raw|] == raw && s[4 + |raw|..] == rest;
  }

  lemma AnswerParts(echo: Bytes, answer: Bytes)
    requires |echo| == 2 && |answer| == 4
    ensures (echo + answer)[..2] == echo && (echo + answer)[2..6] == answer
  {}

  lemma OfferRead(raw: Bytes, down: Bytes, echo: Bytes, answer: Bytes)
    requires |raw| % 4 == 0 && 0 < |raw| / 4 < 256 && |echo| == 2 && |answer| == 4
    ensures AfterVencrypt(Offer(raw) + down, echo + answer) ==
      if echo != [0, 2] then Violation else AfterChoice(DecodeAll(raw), ReadU32(answer), down)
  {
    OfferParts(raw, down);
    AnswerParts(echo, answer);
    SubtypeRead(Offer(raw) + down, echo + answer, |raw| / 4, raw, answer, down);
  }

  lemma SubtypeRead(d: Bytes, u: Bytes, k: nat, raw: Bytes, answer: Bytes, down: Bytes)
    requires Offers(d) && |raw| == 4 * k && d[3] == k && d[4..4 + |raw|] == raw && d[4 + |raw|..] == down
    requires |u| == 6 && |answer| == 4 && u[2..6] == answer
    ensures AfterVencrypt(d, u) ==
      if u[..2] != [0, 2] then Violation else AfterChoice(DecodeAll(raw), ReadU32(answer), down)
  {}

  lemma VencryptChosen(server: Bytes, viewer: Bytes, types: Bytes, down: Bytes, up: Bytes)
    requires |server| == 12 && |viewer| == 12 && Modern(viewer) && 0 < |types| < 256 && (19 as byte) in types
    ensures PhaseOf(server + (([|types|] + types) + down), viewer + ([19] + up)) == AfterVencrypt(down, up)
  {
    VersionsRead(server, viewer, ([|types|] + types) + down, [19] + up);
    TypesRead(types, down, 19, up);
  }

  /** A peer that saw the offer and answered it: in violation, or past the choice of a subtype. */
  lemma PhaseAfterOffer(server: Bytes, viewer: Bytes, types: Bytes, raw: Bytes, down: Bytes, echo: Bytes, answer: Bytes)
    requires |server| == 12 && |viewer| == 12 && Modern(viewer) && 0 < |types| < 256 && (19 as byte) in types
    requires |raw| % 4 == 0 && 0 < |raw| / 4 < 256 && |echo| == 2 && |answer| == 4
    ensures PhaseOf(server + (([|types|] + types) + (Offer(raw) + down)), viewer + ([19] + (echo + answer))) ==
      if echo != [0, 2] then Violation else AfterChoice(DecodeAll(raw), ReadU32(answer), down)
  {
    VencryptChosen(server, viewer, types, Offer(raw) + down, echo + answer);
    OfferRead(raw, down, echo, answer);
  }

  // ---- the two ways of standing in for the viewer ----

  /** A viewer that picks VeNCrypt and then sends its version and a choice of subtype. */
  predicate ChoosesVencrypt(c: Bytes) {
    |c| >= 7 && c[0] == 19
  }

  lemma OfferOfDecoded(raw: Bytes)
    requires |raw| % 4 == 0 && |raw| / 4 < 256
    ensures Offer(EncodeAll(DecodeAll(raw))) == Offer(raw)
  {
    EncodeOfDecode(raw);
  }

  /** Replays the server's own offer and passes on the viewer's choice. */
  method Replay(client: Duplex, tcp: Duplex, subtypes: seq<nat>, ghost raw: Bytes)
    returns (ok: bool, ghost heard: Bytes)
    requires client != tcp && 0 < |subtypes| < 256 && |raw| == 4 * |subtypes| && subtypes == DecodeAll(raw)
    modifies client, tcp
    ensures client.Stream() == old(client.Stream())
    ensures tcp.consumed == old(tcp.consumed) && tcp.incoming == old(tcp.incoming)
    ensures ok <==> ChoosesVencrypt(old(client.incoming))
    ensures ok ==> |heard| == 6 && tcp.written == old(tcp.written) + heard[2..]
    ensures ok ==> client.written == old(client.written) + (([1] + [19]) + Offer(raw))
    ensures ok ==> client.consumed == old(client.consumed) + ([19] + heard)
  {
    heard := [];
    var chosen := OfferSecurity(client, [19]);
    if chosen.None? { return false, []; }
    var choice;
    choice, heard := OfferVeNCrypt(client, subtypes);
    if choice.None? { return false, []; }
    OfferOfDecoded(raw);
    U32OfRead(heard[2..]);
    tcp.Write(U32(choice.value));
    ok := true;
  }

  /** What the viewer has to send when the bridge stands in for the server's `subtype`. */
  predicate ChoosesInner(subtype: nat, c: Bytes)
    requires 260 <= subtype <= 262
  {
    if subtype == 262 then ChoosesVencrypt(c) else c != [] && c[0] == InnerAuth(subtype).value
  }

  /** Offers the viewer what runs inside the tunnel. The viewer's subtype is read and ignored. */
  method OfferInner(client: Duplex, subtype: nat) returns (ok: bool, ghost heard: Bytes)
    requires 260 <= subtype <= 262
    modifies client
    ensures client.Stream() == old(client.Stream())
    ensures ok <==> ChoosesInner(subtype, old(client.incoming))
    ensures ok && subtype == 262 ==>
      && |heard| == 6
      && client.written == old(client.written) + (([1] + [19]) + Offer(U32(256)))
      && client.consumed == old(client.consumed) + ([19] + heard)
    ensures ok && subtype != 262 ==>
      var inner := InnerAuth(subtype).value;
      client.written == old(client.written) + ([1] + [inner]) && client.consumed == old(client.consumed) + [inner]
  {
    heard := [];
    var inner := InnerAuth(subtype).value;
    if inner == SEC_PLAIN {
      var chosen := OfferSecurity(client, [19]);
      if chosen.None? { return false, []; }
      var choice;
      choice, heard := OfferVeNCrypt(client, [SEC_PLAIN]);
      assert EncodeAll([SEC_PLAIN]) == U32(256) + EncodeAll([]);
      ok := choice.Some?;
    } else {
      var chosen := OfferSecurity(client, [inner]);
      ok := chosen.Some?;
    }
  }

  // ---- what comes of a conversation ----

  /** From the server's offer on, when only VeNCrypt can help. */
  function OfferOutcome(server: Bytes, viewer: Bytes, tlsStarts: bool): Outcome {
    if !Offers(server) then Failed
    else
      var k := 4 + 4 * (server[3] as nat);
      var subtypes := DecodeAll(server[4..k]);
      var picked := PickTlsSubtype(subtypes);
      if picked.None? then if ChoosesVencrypt(viewer) then Replayed(subtypes) else Failed
      else TakeoverOutcome(picked.value, server[k..], viewer, tlsStarts)
  }

  /** The server has to give the go, TLS to come up, and the viewer to take what it is offered. */
  function TakeoverOutcome(subtype: nat, server: Bytes, viewer: Bytes, tlsStarts: bool): Outcome
    requires 260 <= subtype <= 262
  {
    if server != [] && server[0] != 0 && tlsStarts && ChoosesInner(subtype, viewer) then TakenOver(subtype) else Failed
  }

  /** From the list of security types on. */
  function TypesOutcome(server: Bytes, serverEnds: Closing, viewer: Bytes, tlsStarts: bool): Outcome {
    if server == [] then Failed
    else if server[0] == 0 then PassThrough
    else
      var types := Chunk(server[1..], server[0], serverEnds);
      if types.None? then Failed
      else if !NeedsBridge(types.value) then PassThrough
      else OfferOutcome(server[1..][|types.value|..], viewer, tlsStarts)
  }

  /** What the handshake comes to, from all the bytes either peer will ever send. */
  function Verdict(server: Bytes, serverEnds: Closing, viewer: Bytes, viewerEnds: Closing, tlsStarts: bool): Outcome {
    var s, v := Chunk(server, 12, serverEnds), Chunk(viewer, 12, viewerEnds);
    if s.None? || v.None? then Failed
    else if !Modern(v.value) then PassThrough
    else TypesOutcome(server[|s.value|..], serverEnds, viewer[|v.value|..], tlsStarts)
  }

  /**
   * Whether the viewer's bytes keep it in step with the server. After its version (12 bytes) and its choice of
   * security type come, where VeNCrypt was offered to it, its VeNCrypt version and its choice of subtype.
   */
  predicate ViewerInStep(r: Outcome, viewer: Bytes) {
    match r
    case PassThrough => true
    case Replayed(subtypes) => |viewer| >= 19 && (viewer[13..15] == [0, 2] || ReadU32(viewer[15..19]) !in subtypes)
    case TakenOver(subtype) => subtype == 262 ==> |viewer| >= 19 && viewer[13..19] == [0, 2, 0, 0, 1, 0]
    case Failed => false
  }

  lemma OutcomeAfterOffer(raw: Bytes, rest: Bytes, viewer: Bytes, tlsStarts: bool)
    requires |raw| % 4 == 0 && 0 < |raw| / 4 < 256
    ensures var picked := PickTlsSubtype(DecodeAll(raw));
      OfferOutcome(Offer(raw) + rest, viewer, tlsStarts) ==
      if picked.None? then if ChoosesVencrypt(viewer) then Replayed(DecodeAll(raw)) else Failed
      else TakeoverOutcome(picked.value, rest, viewer, tlsStarts)
  {
    OfferParts(raw, rest);
  }

  // ---- the four streams ----

  /** What passed between the bridge and its peers: shown to and said by the viewer, and to and from the server. */
  datatype Wire = Wire(shown: Bytes, said: Bytes, fromServer: Bytes, toServer: Bytes)

  ghost function WireOf(client: Duplex, tcp: Duplex): Wire
    reads client, tcp
  {
    Wire(client.written, client.consumed, tcp.consumed, tcp.written)
  }

  predicate WasReplayed(t: Transcript, w: Wire, heard: Bytes) {
    && t.Bridged() && PickTlsSubtype(t.Subtypes()).None? && |heard| == 6
    && w.fromServer == t.FromServer() && w.toServer == t.ToServer(heard[2..])
    && w.shown == Shown(t.server, t.raw) && w.said == t.viewer + ([19] + heard)
  }

  predicate WasTakenOver(t: Transcript, subtype: nat, w: Wire, go: Bytes, heard: Bytes) {
    && t.Bridged() && PickTlsSubtype(t.Subtypes()) == Some(subtype) && |go| == 1 && go[0] != 0
    && w.fromServer == t.FromServer() + go && w.toServer == t.ToServer(U32(subtype))
    && if subtype == 262 then
      |heard| == 6 && w.shown == Shown(t.server, U32(256)) && w.said == t.viewer + ([19] + heard)
    else
      var inner := InnerAuth(subtype).value;
      w.shown == t.server + ([1] + [inner]) && w.said == t.viewer + [inner]
  }

  lemma ReplayedOnTheWire(t: Transcript, heard: Bytes)
    requires t.Bridged() && PickTlsSubtype(t.Subtypes()).None? && |heard| == 6
    ensures
      var shown, said := t.server + (([1] + [19]) + Offer(t.raw)), t.viewer + ([19] + heard);
      var fromServer := t.server + ([|t.types|] + t.types) + Offer(t.raw);
      WasReplayed(t, Wire(shown, said, fromServer, t.viewer + ([19] + [0, 2]) + heard[2..]), heard)
  {
    assert t.server + ([|t.types|] + t.types) + Offer(t.raw) == t.FromServer();
    assert t.viewer + ([19] + [0, 2]) + heard[2..] == t.ToServer(heard[2..]);
  }

  lemma TakenOverOnTheWire(t: Transcript, choice: Bytes, go: Bytes)
    requires t.Bridged()
    ensures t.server + ([|t.types|] + t.types) + Offer(t.raw) + go == t.FromServer() + go
    ensures t.viewer + ([19] + [0, 2]) + choice == t.ToServer(choice)
  {
    assert t.server + ([|t.types|] + t.types) + Offer(t.raw) == t.FromServer();
  }

  method TakeOver(client: Duplex, tcp: Duplex, tlsStarts: bool, subtype: nat, ghost t: Transcript)
    returns (r: Outcome, ghost go: Bytes, ghost heard: Bytes)
    requires client != tcp && t.Bridged() && PickTlsSubtype(t.Subtypes()) == Some(subtype)
    requires client.written == t.server && client.consumed == t.viewer
    requires tcp.consumed == t.server + ([|t.types|] + t.types) + Offer(t.raw)
    requires tcp.written == t.viewer + ([19] + [0, 2])
    modifies client, tcp
    ensures client.Stream() == old(client.Stream()) && tcp.Stream() == old(tcp.Stream())
    ensures r == TakeoverOutcome(subtype, old(tcp.incoming), old(client.incoming), tlsStarts)
    ensures r.TakenOver? ==> WasTakenOver(t, subtype, WireOf(client, tcp), go, heard)
  {
    go, heard := [], [];
    tcp.Write(U32(subtype));
    var g := tcp.ReadExactly(1);
    if g.None? || g.value[0] == 0 || !tlsStarts { return Failed, go, heard; }
    go := g.value;
    TakenOverOnTheWire(t, U32(subtype), go);
    var ok;
    ok, heard := OfferInner(client, subtype);
    r := if ok then TakenOver(subtype) else Failed;
  }

  method StandIn(client: Duplex, tcp: Duplex, tlsStarts: bool, ghost t0: Transcript)
    returns (r: Outcome, ghost t: Transcript, ghost go: Bytes, ghost heard: Bytes)
    requires client != tcp && Modern(t0.viewer) && 0 < |t0.types| < 256 && NeedsBridge(t0.types)
    requires (|t0.server| == 12 || tcp.incoming == []) && (|t0.viewer| == 12 || client.incoming == [])
    requires client.written == t0.server && client.consumed == t0.viewer
    requires tcp.consumed == t0.server + ([|t0.types|] + t0.types) && tcp.written == t0.viewer
    modifies client, tcp
    ensures client.Stream() == old(client.Stream()) && tcp.Stream() == old(tcp.Stream())
    ensures r == OfferOutcome(old(tcp.incoming), old(client.incoming), tlsStarts)
    ensures !r.Failed? ==> t == t0.(raw := t.raw) && t.Bridged() && |t.server| == 12 && |t.viewer| == 12
    ensures r.Replayed? ==> WasReplayed(t, WireOf(client, tcp), heard) && r.subtypes == t.Subtypes()
    ensures r.TakenOver? ==> WasTakenOver(t, r.subtype, WireOf(client, tcp), go, heard)
  {
    t, go, heard := t0, [], [];
    var subtypes, raw := TakeVeNCrypt(tcp);
    if subtypes.None? { return Failed, t, go, heard; }
    t := t0.(raw := raw);
    OutcomeAfterOffer(raw, tcp.incoming, client.incoming, tlsStarts);
    var ok;
    if PickTlsSubtype(subtypes.value).None? {
      ok, heard := Replay(client, tcp, subtypes.value, raw);
      if ok { ReplayedOnTheWire(t, heard); }
      r := if ok then Replayed(subtypes.value) else Failed;
    } else {
      r, go, heard := TakeOver(client, tcp, tlsStarts, PickTlsSubtype(subtypes.value).value, t);
    }
  }

  // ---- both peers in the same phase ----

  predicate InPhase(w: Wire) {
    PhaseOf(w.fromServer, w.toServer) == PhaseOf(w.shown, w.said)
  }

  lemma FromServerIs(t: Transcript)
    requires t.Bridged()
    ensures t.FromServer() == t.server + (([|t.types|] + t.types) + (Offer(t.raw) + []))
  {
    assert Offer(t.raw) + [] == Offer(t.raw);
  }

  lemma ShownIs(server: Bytes, raw: Bytes)
    requires |raw| % 4 == 0 && |raw| / 4 < 256
    ensures Shown(server, raw) == server + (([1] + [19]) + (Offer(raw) + []))
  {
    assert Offer(raw) + [] == Offer(raw);
  }

  /** What either side makes of a replayed offer and its answer. */
  lemma ReplayAsSeen(t: Transcript, w: Wire, echo: Bytes, answer: Bytes)
    requires |t.server| == 12 && |t.viewer| == 12 && |echo| == 2 && |answer| == 4 && WasReplayed(t, w, echo + answer)
    ensures var met := AfterChoice(t.Subtypes(), ReadU32(answer), []);
      && PhaseOf(w.fromServer, w.toServer) == met
      && PhaseOf(w.shown, w.said) == if echo != [0, 2] then Violation else met
  {
    assert (echo + answer)[2..] == answer;
    FromServerIs(t);
    ShownIs(t.server, t.raw);
    PhaseAfterOffer(t.server, t.viewer, t.types, t.raw, [], [0, 2], answer);
    PhaseAfterOffer(t.server, t.viewer, [19], t.raw, [], echo, answer);
  }

  lemma ChoiceIsViolation(subtypes: seq<nat>, choice: nat)
    ensures AfterChoice(subtypes, choice, []) == Violation <==> choice !in subtypes
  {}

  /**
   * A replayed offer leaves both peers in the same phase exactly when the viewer echoed version 0.2, or
   * chose something the server never offered, which both call a violation.
   */
  lemma ReplayKeepsPhase(t: Transcript, w: Wire, heard: Bytes)
    requires |t.server| == 12 && |t.viewer| == 12 && WasReplayed(t, w, heard)
    ensures InPhase(w) <==> heard[..2] == [0, 2] || ReadU32(heard[2..]) !in t.Subtypes()
  {
    assert heard == heard[..2] + heard[2..];
    ReplayAsSeen(t, w, heard[..2], heard[2..]);
    ChoiceIsViolation(t.Subtypes(), ReadU32(heard[2..]));
  }

  lemma ReadOfU32(v: nat)
    requires v < 65536
    ensures ReadU32(U32(v)) == v
  {
    assert v / 256 % 256 == v / 256;
  }

  lemma FromServerAnd(t: Transcript, more: Bytes)
    requires t.Bridged()
    ensures t.FromServer() + more == t.server + (([|t.types|] + t.types) + (Offer(t.raw) + more))
  {}

  /** After a takeover the server waits for the authentication inside the tunnel. */
  lemma ServerAfterTakeover(t: Transcript, subtype: nat, go: Bytes)
    requires t.Bridged() && |t.server| == 12 && |t.viewer| == 12
    requires PickTlsSubtype(t.Subtypes()) == Some(subtype) && |go| == 1 && go[0] != 0
    ensures PhaseOf(t.FromServer() + go, t.ToServer(U32(subtype))) == Authenticating(InnerAuth(subtype).value)
  {
    ReadOfU32(subtype);
    PhaseAfterOffer(t.server, t.viewer, t.types, t.raw, go, [0, 2], U32(subtype));
    FromServerAnd(t, go);
  }

  /** A viewer offered None or VNC authentication. */
  lemma ViewerAfterInner(server: Bytes, viewer: Bytes, inner: byte)
    requires |server| == 12 && |viewer| == 12 && Modern(viewer) && inner != SEC_VENCRYPT
    ensures PhaseOf(server + ([1] + [inner]), viewer + [inner]) == Authenticating(inner)
  {
    VersionsRead(server, viewer, [1] + [inner], [inner]);
    TypesRead([inner], [], inner, []);
    assert ([1] + [inner]) + [] == [1] + [inner] && [inner] + [] == [inner];
  }

  lemma OnlyPlain(answer: Bytes)
    requires |answer| == 4
    ensures AfterChoice(DecodeAll(U32(256)), ReadU32(answer), []) == Authenticating(256) <==> answer == [0, 0, 1, 0]
  {
    ReadOfU32(256);
    U32OfRead(answer);
    assert DecodeAll(U32(256)) == [256];
    assert U32(256) == [0, 0, 1, 0];
  }

  lemma PlainOffered(server: Bytes, viewer: Bytes, echo: Bytes, answer: Bytes)
    requires |server| == 12 && |viewer| == 12 && Modern(viewer) && |echo| == 2 && |answer| == 4
    ensures PhaseOf(Shown(server, U32(256)), viewer + ([19] + (echo + answer))) ==
      if echo != [0, 2] then Violation else AfterChoice(DecodeAll(U32(256)), ReadU32(answer), [])
  {
    assert Offer(U32(256)) + [] == Offer(U32(256));
    PhaseAfterOffer(server, viewer, [19], U32(256), [], echo, answer);
  }

  lemma SixBytes(heard: Bytes)
    requires |heard| == 6
    ensures heard == heard[..2] + heard[2..]
    ensures heard == [0, 2, 0, 0, 1, 0] <==> heard[..2] == [0, 2] && heard[2..] == [0, 0, 1, 0]
  {}

  /** A viewer offered VeNCrypt with Plain alone. */
  lemma ViewerAfterPlain(server: Bytes, viewer: Bytes, heard: Bytes)
    requires |server| == 12 && |viewer| == 12 && Modern(viewer) && |heard| == 6
    ensures PhaseOf(Shown(server, U32(256)), viewer + ([19] + heard)) == Authenticating(256) <==>
      heard == [0, 2, 0, 0, 1, 0]
  {
    PlainOffered(server, viewer, heard[..2], heard[2..]);
    OnlyPlain(heard[2..]);
    SixBytes(heard);
  }

  /**
   * After a takeover both peers are in the same phase: always when None or VNC authentication runs in the
   * tunnel; for Plain exactly when the viewer said 0.2 and chose Plain, because neither is looked at.
   */
  lemma TakeoverKeepsPhase(t: Transcript, subtype: nat, w: Wire, go: Bytes, heard: Bytes)
    requires |t.server| == 12 && |t.viewer| == 12 && WasTakenOver(t, subtype, w, go, heard)
    ensures PhaseOf(w.fromServer, w.toServer) == Authenticating(InnerAuth(subtype).value)
    ensures InPhase(w) <==> (subtype == 262 ==> heard == [0, 2, 0, 0, 1, 0])
  {
    ServerAfterTakeover(t, subtype, go);
    if subtype == 262 {
      ViewerAfterPlain(t.server, t.viewer, heard);
    } else {
      ViewerAfterInner(t.server, t.viewer, InnerAuth(subtype).value);
    }
  }

  // ---- the whole handshake ----

  /**
   * The count and the list of security types; a count of 0 has no list. A server that ends early may send a shorter
   * one.
   */
  method ReadTypes(tcp: Duplex) returns (r: Option<(byte, Bytes)>)
    modifies tcp`incoming, tcp`consumed
    ensures tcp.Stream() == old(tcp.Stream())
    ensures r.Some? <==>
      && old(tcp.incoming) != []
      && (old(tcp.incoming)[0] == 0 || Chunk(old(tcp.incoming)[1..], old(tcp.incoming)[0], tcp.closing).Some?)
    ensures r.Some? ==>
      && |r.value.1| < |old(tcp.incoming)|
      && r.value.0 == old(tcp.incoming)[0]
      && tcp.consumed == old(tcp.consumed) + ([r.value.0] + r.value.1)
      && tcp.incoming == old(tcp.incoming)[1..][|r.value.1|..]
    ensures r.Some? && r.value.0 == 0 ==> r.value.1 == []
    ensures r.Some? && r.value.0 != 0 ==>
      && Chunk(old(tcp.incoming)[1..], r.value.0, tcp.closing) == Some(r.value.1)
      && 0 < |r.value.1| <= r.value.0
      && (|r.value.1| < r.value.0 ==> tcp.incoming == [])
  {
    var count := tcp.ReadExactly(1);
    if count.None? { return None; }
    assert count.value == [count.value[0]];
    if count.value[0] == 0 { return Some((0, [])); }
    var types := tcp.ReadExactly(count.value[0]);
    if types.None? { return None; }
    r := Some((count.value[0], types.value));
  }

  /** Security types, then either everything as it is or the stand-in. */
  method AfterTheVersions(client: Duplex, tcp: Duplex, tlsStarts: bool, ghost server: Bytes, ghost viewer: Bytes)
    returns (r: Outcome, ghost t: Transcript, ghost go: Bytes, ghost heard: Bytes)
    requires client != tcp && Modern(viewer)
    requires client.written == tcp.consumed == server && tcp.written == client.consumed == viewer
    requires (|server| == 12 || tcp.incoming == []) && (|viewer| == 12 || client.incoming == [])
    modifies client, tcp
    ensures client.Stream() == old(client.Stream()) && tcp.Stream() == old(tcp.Stream())
    ensures r == TypesOutcome(old(tcp.incoming), tcp.closing, old(client.incoming), tlsStarts)
    ensures r.PassThrough? ==> client.written == tcp.consumed && tcp.written == client.consumed
    ensures r.Replayed? || r.TakenOver? ==> t.viewer == viewer && |t.server| == 12 && |t.viewer| == 12
    ensures r.Replayed? ==> WasReplayed(t, WireOf(client, tcp), heard) && r.subtypes == t.Subtypes()
    ensures r.TakenOver? ==> WasTakenOver(t, r.subtype, WireOf(client, tcp), go, heard)
  {
    t, go, heard := Transcript(server, viewer, [], []), [], [];
    var types := ReadTypes(tcp);
    if types.None? { return Failed, t, go, heard; }
    if types.value.0 == 0 || !NeedsBridge(types.value.1) {
      client.Write([types.value.0] + types.value.1);
      return PassThrough, t, go, heard;
    }
    if |types.value.1| < types.value.0 { return Failed, t, go, heard; }
    t := t.(types := types.value.1);
    r, t, go, heard := StandIn(client, tcp, tlsStarts, t);
  }

  /** Where the viewer's VeNCrypt version and choice stand in its stream. */
  lemma HeardInStream(viewer: Bytes, heard: Bytes, rest: Bytes)
    requires |viewer| == 12 && |heard| == 6
    ensures var s := viewer + ([19] + heard) + rest;
      && |s| >= 19 && s[13..19] == heard && s[13..15] == heard[..2] && s[15..19] == heard[2..]
  {}

  lemma ReplayInStep(t: Transcript, w: Wire, heard: Bytes, rest: Bytes)
    requires |t.server| == 12 && |t.viewer| == 12 && WasReplayed(t, w, heard)
    ensures InPhase(w) <==> ViewerInStep(Replayed(t.Subtypes()), w.said + rest)
  {
    ReplayKeepsPhase(t, w, heard);
    HeardInStream(t.viewer, heard, rest);
  }

  lemma TakeoverInStep(t: Transcript, subtype: nat, w: Wire, go: Bytes, heard: Bytes, rest: Bytes)
    requires |t.server| == 12 && |t.viewer| == 12 && WasTakenOver(t, subtype, w, go, heard)
    ensures InPhase(w) <==> ViewerInStep(TakenOver(subtype), w.said + rest)
    ensures PhaseOf(w.fromServer, w.toServer) == Authenticating(InnerAuth(subtype).value)
  {
    TakeoverKeepsPhase(t, subtype, w, go, heard);
    if subtype == 262 { HeardInStream(t.viewer, heard, rest); }
  }

  /**
   * `tlsStarts`: whether the TLS handshake and the certificate check succeed. `incoming` holds the bytes that
   * will ever arrive from each peer. When piping starts nothing of either stream is lost, bytes passed through
   * are the very bytes, and both peers are in the same phase exactly when the viewer's bytes are in step.
   */
  method Handshake(client: Duplex, tcp: Duplex, tlsStarts: bool) returns (r: Outcome)
    requires client != tcp && client.written == client.consumed == tcp.written == tcp.consumed == []
    modifies client, tcp
    ensures client.Stream() == old(client.incoming) && tcp.Stream() == old(tcp.incoming)
    ensures r == Verdict(old(tcp.incoming), tcp.closing, old(client.incoming), client.closing, tlsStarts)
    ensures r.PassThrough? ==> client.written == tcp.consumed && tcp.written == client.consumed
    ensures r.TakenOver? ==> 260 <= r.subtype <= 262
    ensures r.TakenOver? ==> PhaseOf(tcp.consumed, tcp.written) == Authenticating(InnerAuth(r.subtype).value)
    ensures !r.Failed? ==> (InPhase(WireOf(client, tcp)) <==> ViewerInStep(r, old(client.incoming)))
  {
    assert [] + client.incoming == client.incoming && [] + tcp.incoming == tcp.incoming;
    var server := tcp.ReadExactly(12);
    if server.None? { return Failed; }
    client.Write(server.value);
    var viewer := client.ReadExactly(12);
    if viewer.None? { return Failed; }
    tcp.Write(viewer.value);
    if !Modern(viewer.value) { return PassThrough; }
    ghost var t, go, heard;
    r, t, go, heard := AfterTheVersions(client, tcp, tlsStarts, server.value, viewer.value);
    match r {
      case Replayed(_) => ReplayInStep(t, WireOf(client, tcp), heard, client.incoming);
      case TakenOver(subtype) => TakeoverInStep(t, subtype, WireOf(client, tcp), go, heard, client.incoming);
      case _ =>
    }
  }

  // ---- when the bridge steps in ----

  /** The security types that stand behind the server's version, as far as they arrive. */
  function Listed(server: Bytes): Bytes {
    if |server| < 13 then [] else if |server| < 13 + server[12] as nat then server[13..]
    else server[13..13 + server[12] as nat]
  }

  /** A list that VeNCrypt alone can rescue: 19 is in it, and nothing the viewer could do by itself. */
  predicate OnlyVencryptHelps(types: Bytes) {
    (19 as byte) in types && forall t :: t in types ==> !ViewerHandles(t)
  }

  lemma AfterBothVersions(server: Bytes, serverEnds: Closing, viewer: Bytes, viewerEnds: Closing, tls: bool)
    requires |server| >= 12 && |viewer| >= 12 && Modern(viewer[..12])
    ensures Verdict(server, serverEnds, viewer, viewerEnds, tls) ==
      TypesOutcome(server[12..], serverEnds, viewer[12..], tls)
  {}

  lemma ListRead(server: Bytes, serverEnds: Closing)
    requires |server| >= 13 && server[12] != 0 && |server| >= 13 + server[12] as nat
    ensures Chunk(server[12..][1..], server[12], serverEnds) == Some(Listed(server))
  {
    assert server[12..][1..] == server[13..];
    assert server[13..][..server[12] as nat] == Listed(server);
  }

  /**
   * Everything is left to the peers exactly when the viewer speaks an old version, the server refuses, or its list
   * has something for the viewer or no VeNCrypt in it.
   */
  lemma PassesThroughIffNotNeeded(server: Bytes, serverEnds: Closing, viewer: Bytes, viewerEnds: Closing, tls: bool)
    requires |server| >= 13 && |server| >= 13 + server[12] as nat && |viewer| >= 12
    ensures Verdict(server, serverEnds, viewer, viewerEnds, tls).PassThrough? <==>
      !Modern(viewer[..12]) || server[12] == 0 || !OnlyVencryptHelps(Listed(server))
  {
    if Modern(viewer[..12]) {
      AfterBothVersions(server, serverEnds, viewer, viewerEnds, tls);
      if server[12] != 0 {
        ListRead(server, serverEnds);
        BridgedIffOnlyVencryptHelps(Listed(server));
      }
    }
  }

  /** A stream that fails before the types are read, or has none of them, ends the handshake. */
  lemma CutStreamsFail(server: Bytes, serverEnds: Closing, viewer: Bytes, viewerEnds: Closing, tls: bool)
    requires
      || server == [] || viewer == []
      || (|server| < 12 && serverEnds.Destroyed?) || (|viewer| < 12 && viewerEnds.Destroyed?)
      || (|server| >= 12 && |viewer| >= 12 && Modern(viewer[..12])
            && (|server| == 12 || (server[12] != 0 && (|server| == 13
                  || (|server| < 13 + server[12] as nat && serverEnds.Destroyed?)))))
    ensures Verdict(server, serverEnds, viewer, viewerEnds, tls).Failed?
  {}

  /**
   * Wherever the streams end: the bridge stands in for the viewer only where VeNCrypt alone helps. It replays an
   * offer that has no X.509 subtype, and takes over for one of those only if the tunnel comes up.
   */
  lemma StandsInOnlyWhereNeeded(server: Bytes, serverEnds: Closing, viewer: Bytes, viewerEnds: Closing, tls: bool)
    ensures var r := Verdict(server, serverEnds, viewer, viewerEnds, tls);
      && (r.Replayed? || r.TakenOver? ==>
            |viewer| >= 12 && Modern(viewer[..12]) && OnlyVencryptHelps(Listed(server)))
      && (r.Replayed? ==> forall s :: s in r.subtypes ==> !(260 <= s <= 262))
      && (r.TakenOver? ==> tls && 260 <= r.subtype <= 262)
  {
    var r := Verdict(server, serverEnds, viewer, viewerEnds, tls);
    if r.Replayed? || r.TakenOver? {
      assert |server| >= 12 && |viewer| >= 12;
      AfterBothVersions(server, serverEnds, viewer, viewerEnds, tls);
      FullListOnly(server, serverEnds, viewer[12..], tls);
      ListRead(server, serverEnds);
      BridgedIffOnlyVencryptHelps(Listed(server));
    }
  }

  /** After a list that was cut short by the end of the stream there is no offer to be read. */
  lemma FullListOnly(server: Bytes, serverEnds: Closing, viewer: Bytes, tls: bool)
    requires |server| >= 12
    requires var r := TypesOutcome(server[12..], serverEnds, viewer, tls); r.Replayed? || r.TakenOver?
    ensures |server| >= 13 && server[12] != 0 && |server| >= 13 + server[12] as nat
  {}

  /** A server that offers X.509, gives the go, and gets a tunnel: the viewer has only to take what it is offered. */
  lemma TakenOverWhenAllAgree(t: Transcript, subtype: nat, go: byte, viewer: Bytes)
    requires |t.server| == 12 && |t.viewer| == 12 && t.Bridged() && PickTlsSubtype(t.Subtypes()) == Some(subtype)
    requires go != 0
    requires if subtype == 262 then |viewer| >= 7 && viewer[0] == 19
      else viewer != [] && viewer[0] == if subtype == 261 then 2 else 1
    ensures Verdict(t.FromServer() + [go], Ended, t.viewer + viewer, Ended, true) == TakenOver(subtype)
  {
    FromServerAnd(t, [go]);
    VerdictAfterTypes(t, Offer(t.raw) + [go], viewer, Ended, Ended, true);
    OutcomeAfterOffer(t.raw, [go], viewer, true);
  }

  /** A server without X.509: the viewer picks VeNCrypt and answers, and has the offer to itself. */
  lemma ReplayedWithoutX509(t: Transcript, viewer: Bytes, tls: bool)
    requires |t.server| == 12 && |t.viewer| == 12 && t.Bridged() && PickTlsSubtype(t.Subtypes()).None?
    requires |viewer| >= 7 && viewer[0] == 19
    ensures Verdict(t.FromServer(), Ended, t.viewer + viewer, Ended, tls) == Replayed(t.Subtypes())
  {
    FromServerIs(t);
    VerdictAfterTypes(t, Offer(t.raw) + [], viewer, Ended, Ended, tls);
    OutcomeAfterOffer(t.raw, [], viewer, tls);
  }

  lemma NextDigit(c: char, rest: string, acc: nat)
    requires IsDigit(c)
    ensures DigitsFrom([c] + rest, acc) == DigitsFrom(rest, acc * 10 + DigitValue(c))
  {
    assert ([c] + rest)[1..] == rest;
  }

  lemma ThreeDigits(a: char, b: char, c: char)
    requires IsDigit(a) && IsDigit(b) && IsDigit(c)
    ensures ParseInt([a, b, c]) == Some(DigitValue(a) * 100 + DigitValue(b) * 10 + DigitValue(c))
  {
    assert [a, b, c] == [a] + ([b] + ([c] + []));
    NextDigit(a, [b] + ([c] + []), 0);
    NextDigit(b, [c] + [], DigitValue(a));
    NextDigit(c, [], DigitValue(a) * 10 + DigitValue(b));
  }

  predicate DigitByte(b: byte) { 48 <= b <= 57 }

  /** A version line as section 7.1.1 of RFC 6143 has it is modern from 3.7 on. */
  lemma ModernIsSinceThreeSeven(v: Bytes)
    requires |v| == 12 && forall i :: 4 <= i < 7 || 8 <= i < 11 ==> DigitByte(v[i])
    ensures var major := (v[4] as int - 48) * 100 + (v[5] as int - 48) * 10 + (v[6] as int - 48);
      var minor := (v[8] as int - 48) * 100 + (v[9] as int - 48) * 10 + (v[10] as int - 48);
      Modern(v) <==> major > 3 || (major == 3 && minor >= 7)
  {
    var text := Latin1(v);
    assert Slice(text, 4, 7) == [text[4], text[5], text[6]];
    assert Slice(text, 8, 11) == [text[8], text[9], text[10]];
    ThreeDigits(text[4], text[5], text[6]);
    ThreeDigits(text[8], text[9], text[10]);
  }

  // ---- a viewer out of step ----

  lemma ParseThreeAndEight()
    ensures ParseInt(['0', '0', '3']) == Some(3) && ParseInt(['0', '0', '8']) == Some(8)
  {
    var a: string, b: string := ['0', '0', '3'], ['0', '0', '8'];
    assert a[1..] == ['0', '3'] && a[1..][1..] == ['3'] && a[1..][1..][1..] == [];
    assert b[1..] == ['0', '8'] && b[1..][1..] == ['8'] && b[1..][1..][1..] == [];
  }

  /** The version line of RFB 3.8. */
  const RFB_3_8: Bytes := [82, 70, 66, 32, 48, 48, 51, 46, 48, 48, 56, 10]

  lemma Rfb38IsModern()
    ensures |RFB_3_8| == 12 && Modern(RFB_3_8)
  {
    var text := Latin1(RFB_3_8);
    assert Slice(text, 4, 7) == ['0', '0', '3'];
    assert Slice(text, 8, 11) == ['0', '0', '8'];
    ParseThreeAndEight();
  }

  /** A server and a viewer that have exchanged versions, and a server that lists `types`. */
  lemma VerdictAfterTypes(t: Transcript, server: Bytes, viewer: Bytes, serverEnds: Closing, viewerEnds: Closing,
    tls: bool)
    requires |t.server| == 12 && |t.viewer| == 12 && t.Bridged()
    ensures Verdict(t.server + (([|t.types|] + t.types) + server), serverEnds, t.viewer + viewer, viewerEnds, tls) ==
      OfferOutcome(server, viewer, tls)
  {
    var types := ([|t.types|] + t.types) + server;
    assert (t.server + types)[..12] == t.server && (t.server + types)[12..] == types;
    assert (t.viewer + viewer)[..12] == t.viewer && (t.viewer + viewer)[12..] == viewer;
    assert types[1..] == t.types + server;
    assert types[1..][..|t.types|] == t.types && types[1..][|t.types|..] == server;
  }

  lemma X509PlainAlone() returns (t: Transcript)
    ensures t == Transcript(RFB_3_8, RFB_3_8, [19], U32(262)) && |RFB_3_8| == 12
    ensures t.Bridged() && PickTlsSubtype(t.Subtypes()) == Some(262)
  {
    Rfb38IsModern();
    t := Transcript(RFB_3_8, RFB_3_8, [19], U32(262));
    assert (t.types[0] as nat) == 19;
    ReadOfU32(262);
    assert DecodeAll(U32(262)) == [262];
  }

  /** The viewer answers 0.1 instead of 0.2 and chooses Plain. */
  const OUT_OF_STEP: Bytes := [0, 1, 0, 0, 1, 0]

  /** Whatever six bytes the viewer sends for a version and a subtype, an X509Plain server is taken over. */
  lemma AnyEchoGetsThrough(t: Transcript, heard: Bytes)
    requires |t.server| == 12 && |t.viewer| == 12 && t.Bridged() && PickTlsSubtype(t.Subtypes()) == Some(262)
    requires |heard| == 6
    ensures Verdict(t.FromServer() + [1], Ended, t.viewer + ([19] + heard), Ended, true) == TakenOver(262)
  {
    FromServerAnd(t, [1]);
    VerdictAfterTypes(t, Offer(t.raw) + [1], [19] + heard, Ended, Ended, true);
    OutcomeAfterOffer(t.raw, [1], [19] + heard, true);
  }

  lemma OnlyThatEchoIsInStep(viewer: Bytes, heard: Bytes)
    requires |viewer| == 12 && |heard| == 6
    ensures ViewerInStep(TakenOver(262), viewer + ([19] + heard)) <==> heard == [0, 2, 0, 0, 1, 0]
  {
    HeardInStream(viewer, heard, []);
    assert viewer + ([19] + heard) + [] == viewer + ([19] + heard);
  }

  /**
   * RFB 3.8, security type VeNCrypt, X509Plain and go; the viewer picks VeNCrypt, answers 0.1 instead of 0.2 and
   * chooses Plain. The handshake completes on these bytes, and the peers part: the server waits for Plain, while
   * the viewer's half of the conversation is broken.
   */
  lemma UncheckedEchoPartsThePeers()
    ensures |RFB_3_8| == 12 && Modern(RFB_3_8)
    ensures
      var t := Transcript(RFB_3_8, RFB_3_8, [19], U32(262));
      && t.Bridged()
      && var server, viewer := t.FromServer() + [1], RFB_3_8 + ([19] + OUT_OF_STEP);
      && Verdict(server, Ended, viewer, Ended, true) == TakenOver(262)
      && !ViewerInStep(TakenOver(262), viewer)
      && var w := Wire(Shown(RFB_3_8, U32(256)), viewer, server, t.ToServer(U32(262)));
      && WasTakenOver(t, 262, w, [1], OUT_OF_STEP) && !InPhase(w)
  {
    var t := X509PlainAlone();
    assert OUT_OF_STEP[1] == 1;
    AnyEchoGetsThrough(t, OUT_OF_STEP);
    OnlyThatEchoIsInStep(RFB_3_8, OUT_OF_STEP);
    var viewer := RFB_3_8 + ([19] + OUT_OF_STEP);
    var w := Wire(Shown(RFB_3_8, U32(256)), viewer, t.FromServer() + [1], t.ToServer(U32(262)));
    TakeoverKeepsPhase(t, 262, w, [1], OUT_OF_STEP);
  }
}
