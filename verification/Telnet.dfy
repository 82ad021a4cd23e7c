/**
 * The Telnet IAC filter (electron/services/TelnetService.ts:37-73), the command stream of RFC 854,
 * section TELNET COMMAND STRUCTURE. Three quirks are kept as written: IAC IAC delivers nothing, a
 * subnegotiation is over at its first byte 240, with or without an IAC before it, and no state survives from
 * one chunk to the next. `DeliversRfcDataIffIntact` and `SplitIffComplete` say exactly what that hurts.
 */
module Telnet {
  import opened Basics

  const IAC: byte := 255
  const DONT: byte := 254
  const DO: byte := 253
  const WONT: byte := 252
  const WILL: byte := 251
  const SB: byte := 250
  const SE: byte := 240
  const OPT_ECHO: byte := 1
  const OPT_SUPPRESS_GA: byte := 3
  const OPT_TERMINAL_TYPE: byte := 24
  const OPT_NAWS: byte := 31

  /** What an index past the end of a Buffer reads as; written back into a Buffer it becomes 0. */
  const ABSENT := -1

  function At(data: seq<byte>, i: nat): (v: int) {
    if i < |data| then data[i] as int else ABSENT
  }

  function Wire(v: int): byte {
    if 0 <= v < 256 then v else 0
  }

  datatype Size = Size(cols: nat, rows: nat)

  function Naws(size: Size): seq<byte> {
    [IAC, SB, OPT_NAWS, size.cols / 256 % 256, size.cols % 256, size.rows / 256 % 256, size.rows % 256, IAC, SE]
  }

  /** `IAC SB TERMINAL-TYPE IS xterm-256color IAC SE`. */
  const TERMINAL_TYPE_IS: seq<byte> :=
    [IAC, SB, OPT_TERMINAL_TYPE, 0, 120, 116, 101, 114, 109, 45, 50, 53, 54, 99, 111, 108, 111, 114, IAC, SE]

  /** First index of `b` at or after `i`, or -1. */
  function IndexOf(data: seq<byte>, b: byte, i: nat): (r: int)
    ensures r == -1 ==> forall k :: i <= k < |data| ==> data[k] != b
    ensures r != -1 ==> i <= r < |data| && data[r] == b && forall k :: i <= k < r ==> data[k] != b
    decreases |data| - i
  {
    if i >= |data| then -1 else if data[i] == b then i else IndexOf(data, b, i + 1)
  }

  // ---- the filter as a function ----

  /** Bytes delivered to the terminal, and the writes made to the socket, in order. */
  datatype Filtered = Filtered(out: seq<byte>, sent: seq<seq<byte>>) {
    function Then(next: Filtered): Filtered { Filtered(out + next.out, sent + next.sent) }
  }

  function Drop(data: seq<byte>, n: nat): seq<byte> {
    if n <= |data| then data[n..] else []
  }

  predicate Negotiates(cmd: int) { cmd == DO || cmd == DONT || cmd == WILL || cmd == WONT }

  function AnswerNegotiation(cmd: int, opt: int, size: Size): seq<seq<byte>>
    requires Negotiates(cmd)
  {
    if cmd == DO then
      if opt == OPT_TERMINAL_TYPE || opt == OPT_SUPPRESS_GA || opt == OPT_NAWS then
        [[IAC, WILL, Wire(opt)]] + if opt == OPT_NAWS then [Naws(size)] else []
      else [[IAC, WONT, Wire(opt)]]
    else if cmd == WILL then [[IAC, if opt == OPT_ECHO || opt == OPT_SUPPRESS_GA then DO else DONT, Wire(opt)]]
    else [[IAC, if cmd == DONT then WONT else DONT, Wire(opt)]]
  }

  /** Only a terminal-type SEND is answered. */
  function AnswerSubnegotiation(first: int, second: int): seq<seq<byte>> {
    if first == OPT_TERMINAL_TYPE && second == 1 then [TERMINAL_TYPE_IS] else []
  }

  /** How many bytes the item at the front takes; more than there are when it is cut off by the end. */
  function Width(data: seq<byte>): (n: nat)
    requires data != []
    ensures n >= 1
  {
    if data[0] != IAC then 1
    else if Negotiates(At(data, 1)) then 3
    else if At(data, 1) == SB then
      var se := IndexOf(data, SE, 0);
      if se >= 0 then se + 1 else |data| + 1
    else 2
  }

  function First(data: seq<byte>, size: Size): Filtered
    requires data != []
  {
    if data[0] != IAC then Filtered([data[0]], [])
    else if Negotiates(At(data, 1)) then Filtered([], AnswerNegotiation(At(data, 1), At(data, 2), size))
    else if At(data, 1) == SB then Filtered([], AnswerSubnegotiation(At(data, 2), At(data, 3)))
    else Filtered([], [])
  }

  function Filter(data: seq<byte>, size: Size): Filtered
    decreases |data|
  {
    if data == [] then Filtered([], []) else First(data, size).Then(Filter(Drop(data, Width(data)), size))
  }

  class TelnetSession {
    var size: Size
    var sent: seq<seq<byte>>

    constructor (size: Size)
      ensures this.size == size && sent == []
    {
      this.size, sent := size, [];
    }

    method Write(bytes: seq<byte>)
      modifies this`sent
      ensures sent == old(sent) + [bytes]
    {
      sent := sent + [bytes];
    }

    method Negotiate(cmd: byte, opt: int)
      modifies this`sent
      ensures sent == old(sent) + [[IAC, cmd, Wire(opt)]]
    {
      Write([IAC, cmd, Wire(opt)]);
    }

    method SendNaws()
      modifies this`sent
      ensures sent == old(sent) + [Naws(size)]
    {
      var cols, rows := size.cols, size.rows;
      Write([IAC, SB, OPT_NAWS, cols / 256 % 256, cols % 256, rows / 256 % 256, rows % 256, IAC, SE]);
    }

    method Resize(cols: nat, rows: nat)
      modifies this
      ensures size == Size(cols, rows) && sent == old(sent) + [Naws(size)]
    {
      size := Size(cols, rows);
      SendNaws();
    }

    /** The DO, WILL, DONT and WONT branches. */
    method OnNegotiation(cmd: byte, opt: int)
      requires Negotiates(cmd as int)
      modifies this`sent
      ensures sent == old(sent) + AnswerNegotiation(cmd as int, opt, size)
    {
      if cmd == DO {
        if opt == OPT_TERMINAL_TYPE || opt == OPT_SUPPRESS_GA || opt == OPT_NAWS {
          Negotiate(WILL, opt);
          if opt == OPT_NAWS { SendNaws(); }
        } else {
          Negotiate(WONT, opt);
        }
      } else if cmd == WILL {
        Negotiate(if opt == OPT_ECHO || opt == OPT_SUPPRESS_GA then DO else DONT, opt);
      } else {
        Negotiate(if cmd == DONT then WONT else DONT, opt);
      }
    }

    /** The SB branch: a terminal-type request is answered with "xterm-256color". */
    method OnSubnegotiation(first: int, second: int)
      modifies this`sent
      ensures sent == old(sent) + AnswerSubnegotiation(first, second)
    {
      if first == OPT_TERMINAL_TYPE && second == 1 {
        var tt: seq<byte> := [120, 116, 101, 114, 109, 45, 50, 53, 54, 99, 111, 108, 111, 114];
        assert [IAC, SB, OPT_TERMINAL_TYPE, 0] + tt + [IAC, SE] == TERMINAL_TYPE_IS;
        Write([IAC, SB, OPT_TERMINAL_TYPE, 0] + tt + [IAC, SE]);
      }
    }

    /** One turn of the loop: handle what stands at `i`, return the index after it. */
    method OnByte(data: seq<byte>, i: nat, out: seq<byte>) returns (next: nat, out': seq<byte>)
      requires i < |data|
      modifies this`sent
      ensures next == i + Width(data[i..]) || next == |data| < i + Width(data[i..])
      ensures out' == out + First(data[i..], size).out
      ensures sent == old(sent) + First(data[i..], size).sent
    {
      ghost var rest := data[i..];
      out' := out;
      if data[i] == IAC {
        var cmd, opt := At(data, i + 1), At(data, i + 2);
        assert At(rest, 1) == cmd && At(rest, 2) == opt && At(rest, 3) == At(data, i + 3);
        if Negotiates(cmd) {
          OnNegotiation(cmd, opt);
          next := i + 3;
        } else if cmd == SB {
          var seIdx := IndexOf(data, SE, i);
          IndexOfSuffix(data, SE, i);
          OnSubnegotiation(opt, At(data, i + 3));
          next := if seIdx >= 0 then seIdx + 1 else |data|;
        } else {
          next := i + 2;
        }
      } else {
        out' := out + [data[i]];
        next := i + 1;
      }
    }

    method HandleIac(data: seq<byte>) returns (out: seq<byte>)
      modifies this`sent
      ensures out == Filter(data, size).out
      ensures sent == old(sent) + Filter(data, size).sent
    {
      out := [];
      var i := 0;
      Arrived(Filtered(out, sent), data, size);
      while i < |data|
        invariant Filtered(out, sent).Then(Filter(Drop(data, i), size)) ==
          Filtered([], old(sent)).Then(Filter(data, size))
      {
        ghost var before, at := Filtered(out, sent), i;
        i, out := OnByte(data, i, out);
        Advance(before, data, at, i, size);
      }
      Arrived(Filtered(out, sent), [], size);
    }
  }

  lemma Arrived(done: Filtered, data: seq<byte>, size: Size)
    ensures Drop(data, 0) == data
    ensures Filtered([], []).Then(Filter(data, size)) == Filter(data, size)
    ensures data == [] ==> done.Then(Filter(data, size)) == done
  {}

  lemma Advance(done: Filtered, data: seq<byte>, i: nat, next: nat, size: Size)
    requires i < |data| && (next == i + Width(data[i..]) || next == |data| < i + Width(data[i..]))
    ensures done.Then(First(data[i..], size)).Then(Filter(Drop(data, next), size)) ==
      done.Then(Filter(Drop(data, i), size))
  {
    var n := Width(data[i..]);
    DropSuffix(data, i, n);
    PastTheEnd(data, next, i + n);
    FilterUnfolds(data[i..], size);
    AdvanceOver(done, data[i..], Drop(data, next), size);
  }

  lemma AdvanceOver(done: Filtered, data: seq<byte>, rest: seq<byte>, size: Size)
    requires data != [] && rest == Drop(data, Width(data))
    ensures done.Then(First(data, size)).Then(Filter(rest, size)) == done.Then(Filter(data, size))
  {
    FilterUnfolds(data, size);
    ThenAssociates(done, First(data, size), Filter(rest, size));
  }

  lemma FilterUnfolds(data: seq<byte>, size: Size)
    requires data != []
    ensures Filter(data, size) == First(data, size).Then(Filter(Drop(data, Width(data)), size))
  {}

  lemma PastTheEnd(data: seq<byte>, next: nat, n: nat)
    requires next == n || next == |data| < n
    ensures Drop(data, next) == Drop(data, n)
  {}

  lemma DropSuffix(data: seq<byte>, i: nat, n: nat)
    requires i <= |data|
    ensures Drop(data, i + n) == Drop(data[i..], n)
  {}

  lemma ThenAssociates(a: Filtered, b: Filtered, c: Filtered)
    ensures a.Then(b.Then(c)) == a.Then(b).Then(c)
  {
    assert a.out + (b.out + c.out) == (a.out + b.out) + c.out;
    assert a.sent + (b.sent + c.sent) == (a.sent + b.sent) + c.sent;
  }

  lemma IndexOfSuffix(data: seq<byte>, b: byte, i: nat)
    requires i <= |data|
    ensures IndexOf(data, b, i) == (if IndexOf(data[i..], b, 0) < 0 then -1 else i + IndexOf(data[i..], b, 0))
  {
    assert forall k :: 0 <= k < |data| - i ==> data[i..][k] == data[i + k];
    var r, q := IndexOf(data, b, i), IndexOf(data[i..], b, 0);
    if r >= 0 { assert data[i..][r - i] == b; }
    if q >= 0 { assert data[i + q] == b; }
  }

  // ---- chunk boundaries ----

  /** The filter never reads past the end of `data`: every command that begins in it also ends in it. */
  predicate Complete(data: seq<byte>)
    decreases |data|
  {
    data == [] || (Width(data) <= |data| && Complete(data[Width(data)..]))
  }

  lemma IndexOfPrefix(a: seq<byte>, b: seq<byte>, v: byte)
    requires IndexOf(a, v, 0) >= 0
    ensures IndexOf(a + b, v, 0) == IndexOf(a, v, 0)
  {
    assert forall k :: 0 <= k < |a| ==> (a + b)[k] == a[k];
    assert (a + b)[IndexOf(a, v, 0)] == v;
  }

  /** A first item that is all there is read the same whatever follows it. */
  lemma FirstOfWhole(a: seq<byte>, b: seq<byte>, size: Size)
    requires a != [] && Width(a) <= |a|
    ensures Width(a + b) == Width(a) && First(a + b, size) == First(a, size)
  {
    if a[0] == IAC && a[1] == SB { IndexOfPrefix(a, b, SE); }
  }

  lemma {:induction false} CompleteSplits(a: seq<byte>, b: seq<byte>, size: Size)
    requires Complete(a)
    ensures Filter(a + b, size) == Filter(a, size).Then(Filter(b, size))
    decreases |a|
  {
    if a == [] {
      assert a + b == b;
    } else {
      var n := Width(a);
      FirstOfWhole(a, b, size);
      assert Drop(a + b, n) == a[n..] + b;
      CompleteSplits(a[n..], b, size);
      ThenAssociates(First(a, size), Filter(a[n..], size), Filter(b, size));
    }
  }

  /** A plain byte after a cut command is swallowed by it; in a chunk of its own it is delivered. */
  lemma {:induction false} IncompleteSwallows(a: seq<byte>, b: byte, size: Size)
    requires !Complete(a) && b < SE
    ensures Filter(a + [b], size).out == Filter(a, size).out
    decreases |a|
  {
    var n := Width(a);
    if n <= |a| {
      FirstOfWhole(a, [b], size);
      assert Drop(a + [b], n) == a[n..] + [b];
      IncompleteSwallows(a[n..], b, size);
    } else {
      assert forall k :: 0 <= k < |a| ==> (a + [b])[k] == a[k];
      assert (a + [b])[|a|] == b;
      assert Drop(a, n) == [] && Drop(a + [b], Width(a + [b])) == [];
    }
  }

  /** A chunk boundary is harmless, whatever comes next, exactly when no command straddles it. */
  lemma SplitIffComplete(a: seq<byte>, size: Size)
    ensures Complete(a) <==> forall b: seq<byte> :: Filter(a + b, size) == Filter(a, size).Then(Filter(b, size))
  {
    if Complete(a) {
      forall b: seq<byte> ensures Filter(a + b, size) == Filter(a, size).Then(Filter(b, size)) {
        CompleteSplits(a, b, size);
      }
    } else {
      var b: seq<byte> := [65];
      IncompleteSwallows(a, 65, size);
      assert Filter(b, size).out == [65] + Filter([], size).out;
      assert |Filter(a + b, size).out| != |Filter(a, size).Then(Filter(b, size)).out|;
    }
  }

  // ---- streams a server renders ----

  datatype Item = Data(b: byte) | Command(cmd: byte) | Negotiation(cmd: byte, opt: byte)
    | Subnegotiation(body: seq<byte>)

  predicate ItemOk(item: Item) {
    match item
    case Data(b) => b != IAC
    case Command(cmd) => !Negotiates(cmd as int) && cmd != SB
    case Negotiation(cmd, _) => Negotiates(cmd as int)
    case Subnegotiation(_) => true
  }

  function Doubled(b: byte): seq<byte> {
    if b == IAC then [IAC, IAC] else [b]
  }

  /** Parameters of a subnegotiation on the wire: RFC 855 has a sender double each 255 in them. */
  function Escaped(body: seq<byte>): seq<byte> {
    if body == [] then [] else Doubled(body[0]) + Escaped(body[1..])
  }

  function Render(item: Item): seq<byte> {
    match item
    case Data(b) => [b]
    case Command(cmd) => [IAC, cmd]
    case Negotiation(cmd, opt) => [IAC, cmd, opt]
    case Subnegotiation(body) => [IAC, SB] + (Escaped(body) + [IAC, SE])
  }

  function RenderAll(items: seq<Item>): seq<byte> {
    if items == [] then [] else Render(items[0]) + RenderAll(items[1..])
  }

  /** The part of a subnegotiation that comes after the first 240, where the filter takes it to be over. */
  function AfterSe(body: seq<byte>): seq<byte> {
    if body == [] then [] else if body[0] == SE then body[1..] else AfterSe(body[1..])
  }

  function WithoutIac(bytes: seq<byte>): seq<byte> {
    if bytes == [] then [] else (if bytes[0] == IAC then [] else [bytes[0]]) + WithoutIac(bytes[1..])
  }

  /** What the terminal gets to see of an item, and what the server hears back about it. */
  function Meaning(item: Item, size: Size): Filtered
    requires ItemOk(item)
  {
    match item
    case Data(b) => Filtered([b], [])
    case Command(_) => Filtered([], [])
    case Negotiation(cmd, opt) => Filtered([], AnswerNegotiation(cmd as int, opt as int, size))
    case Subnegotiation(body) =>
      Filtered(WithoutIac(AfterSe(body)), if [OPT_TERMINAL_TYPE, 1] <= body then [TERMINAL_TYPE_IS] else [])
  }

  function MeaningAll(items: seq<Item>, size: Size): Filtered
    requires forall item | item in items :: ItemOk(item)
  {
    if items == [] then Filtered([], []) else Meaning(items[0], size).Then(MeaningAll(items[1..], size))
  }

  /** Behind the first 240 of `data` comes `rest`. */
  predicate CutsTo(data: seq<byte>, rest: seq<byte>) {
    var se := IndexOf(data, SE, 0);
    se >= 0 && data[se + 1..] == rest
  }

  lemma CutBehind(front: seq<byte>, data: seq<byte>, rest: seq<byte>)
    requires SE !in front && CutsTo(data, rest)
    ensures CutsTo(front + data, rest)
  {
    var whole, q := front + data, IndexOf(data, SE, 0);
    assert forall k :: 0 <= k < |front| ==> whole[k] == front[k];
    assert forall k :: 0 <= k < |data| ==> whole[|front| + k] == data[k];
    assert whole[|front| + q] == SE;
    assert whole[|front| + q + 1..] == data[q + 1..];
  }

  lemma EscapedUnfolds(body: seq<byte>)
    requires body != []
    ensures Escaped(body) + [IAC, SE] == Doubled(body[0]) + (Escaped(body[1..]) + [IAC, SE])
  {}

  /** The search for 240 ends at the first one of the parameters, else at the one that closes them. */
  lemma {:induction false} CutAtSe(body: seq<byte>)
    ensures CutsTo(Escaped(body) + [IAC, SE], if SE in body then Escaped(AfterSe(body)) + [IAC, SE] else [])
    decreases |body|
  {
    if body == [] {
      CutBehind([IAC], [SE], []);
      assert Escaped(body) + [IAC, SE] == [IAC] + [SE];
    } else {
      var rest := Escaped(body[1..]) + [IAC, SE];
      EscapedUnfolds(body);
      if body[0] == SE {
        CutBehind([], [SE] + rest, rest);
        assert [] + ([SE] + rest) == [SE] + rest;
      } else {
        CutAtSe(body[1..]);
        CutBehind(Doubled(body[0]), rest, if SE in body[1..] then Escaped(AfterSe(body[1..])) + [IAC, SE] else []);
      }
    }
  }

  lemma DoubledIsOneItem(b: byte, rest: seq<byte>, size: Size)
    ensures var r := Doubled(b) + rest;
      && Width(r) == |Doubled(b)| && r[Width(r)..] == rest
      && First(r, size) == Filtered(if b == IAC then [] else [b], [])
  {}

  /** Parameters read as if they were data: all but the doubled 255s is delivered, and nothing is cut off. */
  lemma {:induction false} TailIsDelivered(bytes: seq<byte>, size: Size)
    ensures var r := Escaped(bytes) + [IAC, SE]; Complete(r) && Filter(r, size) == Filtered(WithoutIac(bytes), [])
    decreases |bytes|
  {
    if bytes == [] {
      assert Escaped(bytes) + [IAC, SE] == [IAC, SE] && [IAC, SE][2..] == [];
    } else {
      var rest := Escaped(bytes[1..]) + [IAC, SE];
      TailIsDelivered(bytes[1..], size);
      EscapedUnfolds(bytes);
      DoubledIsOneItem(bytes[0], rest, size);
      FilterUnfolds(Doubled(bytes[0]) + rest, size);
    }
  }

  lemma RequestIsSeen(body: seq<byte>)
    ensures var r := Render(Subnegotiation(body));
      At(r, 2) == OPT_TERMINAL_TYPE && At(r, 3) == 1 <==> [OPT_TERMINAL_TYPE, 1] <= body
  {
    var r := Render(Subnegotiation(body));
    assert r[2..] == Escaped(body) + [IAC, SE];
    if body != [] && body[0] == OPT_TERMINAL_TYPE {
      assert Escaped(body) == [OPT_TERMINAL_TYPE] + Escaped(body[1..]);
      assert r[3..] == Escaped(body[1..]) + [IAC, SE];
    }
  }

  /** One turn of the loop on a rendered subnegotiation. */
  lemma SubnegotiationStep(body: seq<byte>, size: Size)
    ensures var r := Render(Subnegotiation(body));
      && Width(r) <= |r|
      && r[Width(r)..] == (if SE in body then Escaped(AfterSe(body)) + [IAC, SE] else [])
      && First(r, size) == Filtered([], if [OPT_TERMINAL_TYPE, 1] <= body then [TERMINAL_TYPE_IS] else [])
  {
    var rest := if SE in body then Escaped(AfterSe(body)) + [IAC, SE] else [];
    CutAtSe(body);
    CutBehind([IAC, SB], Escaped(body) + [IAC, SE], rest);
    RequestIsSeen(body);
  }

  lemma SubnegotiationIsFiltered(body: seq<byte>, size: Size)
    ensures var r := Render(Subnegotiation(body));
      Complete(r) && Filter(r, size) == Meaning(Subnegotiation(body), size)
  {
    SubnegotiationStep(body, size);
    if SE in body {
      TailIsDelivered(AfterSe(body), size);
    } else {
      NothingAfterSe(body);
    }
    assert Complete(if SE in body then Escaped(AfterSe(body)) + [IAC, SE] else []);
    InTwo(Render(Subnegotiation(body)), size);
  }

  lemma InTwo(data: seq<byte>, size: Size)
    requires data != [] && Width(data) <= |data| && Complete(data[Width(data)..])
    ensures Complete(data) && Filter(data, size) == First(data, size).Then(Filter(data[Width(data)..], size))
  {}

  lemma {:induction false} NothingAfterSe(body: seq<byte>)
    requires SE !in body
    ensures AfterSe(body) == []
  {
    if body != [] { NothingAfterSe(body[1..]); }
  }

  lemma FilterItem(item: Item, size: Size)
    requires ItemOk(item)
    ensures Complete(Render(item)) && Filter(Render(item), size) == Meaning(item, size)
  {
    var r := Render(item);
    match item
    case Data(b) => assert r[1..] == [];
    case Command(_) => assert r[2..] == [];
    case Negotiation(_, _) => assert r[3..] == [];
    case Subnegotiation(body) => SubnegotiationIsFiltered(body, size);
  }

  lemma {:induction false} FilterItems(items: seq<Item>, rest: seq<byte>, size: Size)
    requires forall item | item in items :: ItemOk(item)
    ensures Filter(RenderAll(items) + rest, size) == MeaningAll(items, size).Then(Filter(rest, size))
    decreases |items|
  {
    if items == [] {
      assert RenderAll(items) + rest == rest;
    } else {
      var tail := RenderAll(items[1..]) + rest;
      assert RenderAll(items) + rest == Render(items[0]) + tail;
      FilterItem(items[0], size);
      CompleteSplits(Render(items[0]), tail, size);
      FilterItems(items[1..], rest, size);
      ThenAssociates(Meaning(items[0], size), MeaningAll(items[1..], size), Filter(rest, size));
    }
  }

  // ---- arbitrary bytes ----

  ghost predicate Subsequence(a: seq<byte>, b: seq<byte>)
    decreases |b|
  {
    if a == [] then true
    else if b == [] then false
    else (a[0] == b[0] && Subsequence(a[1..], b[1..])) || Subsequence(a, b[1..])
  }

  lemma {:induction false} SubsequenceOfSuffix(a: seq<byte>, b: seq<byte>, n: nat)
    requires n <= |b| && Subsequence(a, b[n..])
    ensures Subsequence(a, b)
    decreases n
  {
    if n == 0 {
      assert b[n..] == b;
    } else if a != [] {
      assert b[n..] == b[1..][n - 1..];
      SubsequenceOfSuffix(a, b[1..], n - 1);
    }
  }

  /** On any bytes at all: nothing is invented or reordered, and 255 never reaches the terminal. */
  lemma {:induction false} OutputIsASubsequence(data: seq<byte>, size: Size)
    ensures Subsequence(Filter(data, size).out, data)
    ensures IAC !in Filter(data, size).out
    decreases |data|
  {
    if data == [] {
    } else {
      var n := Width(data);
      var rest := Drop(data, n);
      OutputIsASubsequence(rest, size);
      var tail := Filter(rest, size).out;
      if data[0] != IAC {
        assert Filter(data, size).out == [data[0]] + tail;
        assert ([data[0]] + tail)[1..] == tail;
      } else {
        assert Filter(data, size).out == tail;
        if n <= |data| { SubsequenceOfSuffix(tail, data, n); }
      }
    }
  }

  // ---- the data of RFC 854 ----

  /** The data RFC 854 puts into an item; a doubled IAC stands for the data byte 255. */
  function RfcData(item: Item): seq<byte> {
    match item
    case Data(b) => [b]
    case Command(cmd) => if cmd == IAC then [IAC] else []
    case _ => []
  }

  function RfcDataAll(items: seq<Item>): seq<byte> {
    if items == [] then [] else RfcData(items[0]) + RfcDataAll(items[1..])
  }

  /** Nothing but 255s stands behind a 240 in the parameters. */
  predicate EndsWhereItEnds(body: seq<byte>) {
    forall i, j :: 0 <= i < j < |body| && body[i] == SE ==> body[j] == IAC
  }

  /** The filter delivers the item's own data: it is no doubled IAC and no subnegotiation that is cut short. */
  predicate Intact(item: Item) {
    match item
    case Command(cmd) => cmd != IAC
    case Subnegotiation(body) => EndsWhereItEnds(body)
    case _ => true
  }

  lemma {:induction false} OnlyIacs(bytes: seq<byte>)
    ensures WithoutIac(bytes) == [] <==> forall k :: 0 <= k < |bytes| ==> bytes[k] == IAC
  {
    if bytes != [] {
      OnlyIacs(bytes[1..]);
      assert forall k :: 1 <= k < |bytes| ==> bytes[k] == bytes[1..][k - 1];
    }
  }

  /** A subnegotiation is swallowed whole exactly when it ends where the filter thinks it does. */
  lemma {:induction false} SwallowedIffItEnds(body: seq<byte>)
    ensures WithoutIac(AfterSe(body)) == [] <==> EndsWhereItEnds(body)
  {
    if body != [] {
      var rest := body[1..];
      assert forall k :: 1 <= k < |body| ==> body[k] == rest[k - 1];
      if body[0] == SE {
        OnlyIacs(rest);
      } else {
        SwallowedIffItEnds(rest);
        assert EndsWhereItEnds(rest) ==> EndsWhereItEnds(body);
        if EndsWhereItEnds(body) {
          forall i, j | 0 <= i < j < |rest| && rest[i] == SE ensures rest[j] == IAC {
            assert body[i + 1] == SE;
          }
        }
      }
    }
  }

  lemma ItemKeepsDataIffIntact(item: Item, size: Size)
    requires ItemOk(item) && item != Command(IAC)
    ensures |Meaning(item, size).out| >= |RfcData(item)|
    ensures Intact(item) ==> Meaning(item, size).out == RfcData(item)
    ensures !Intact(item) ==> |Meaning(item, size).out| > |RfcData(item)|
  {
    if item.Subnegotiation? { SwallowedIffItEnds(item.body); }
  }

  /** Short of a doubled IAC, what is wrong with a stream shows in bytes too many. */
  lemma {:induction false} DataOfMeaning(items: seq<Item>, size: Size)
    requires (forall item | item in items :: ItemOk(item)) && Command(IAC) !in items
    ensures |MeaningAll(items, size).out| >= |RfcDataAll(items)|
    ensures (forall item | item in items :: Intact(item)) ==> MeaningAll(items, size).out == RfcDataAll(items)
    ensures !(forall item | item in items :: Intact(item)) ==> |MeaningAll(items, size).out| > |RfcDataAll(items)|
    decreases |items|
  {
    if items != [] {
      DataOfMeaning(items[1..], size);
      ItemKeepsDataIffIntact(items[0], size);
      assert items == [items[0]] + items[1..];
    }
  }

  lemma {:induction false} DoubledIacIsData(items: seq<Item>)
    requires Command(IAC) in items
    ensures IAC in RfcDataAll(items)
  {
    if items[0] != Command(IAC) {
      assert items == [items[0]] + items[1..];
      DoubledIacIsData(items[1..]);
    }
  }

  /**
   * The filter delivers the data RFC 854 puts into a rendered stream exactly when no IAC is doubled in it and each
   * of its subnegotiations ends where the filter thinks it does.
   */
  lemma DeliversRfcDataIffIntact(items: seq<Item>, size: Size)
    requires forall item | item in items :: ItemOk(item)
    ensures Filter(RenderAll(items), size).out == RfcDataAll(items) <==> forall item | item in items :: Intact(item)
  {
    FilterItems(items, [], size);
    assert RenderAll(items) + [] == RenderAll(items);
    assert MeaningAll(items, size).Then(Filter([], size)).out == MeaningAll(items, size).out;
    if Command(IAC) in items {
      DoubledIacIsData(items);
      OutputIsASubsequence(RenderAll(items), size);
      assert !Intact(Command(IAC));
    } else {
      DataOfMeaning(items, size);
    }
  }

  /** The shortest stream it fails on: data byte 255 alone is lost. */
  lemma DoubledIacIsLost(size: Size)
    ensures Filter([IAC, IAC], size) == Filtered([], []) && RfcDataAll([Command(IAC)]) == [IAC]
  {
    FilterItem(Command(IAC), size);
    assert [Command(IAC)][1..] == [];
  }

  lemma CutShortParameters(body: seq<byte>)
    requires body == [31, 240, 65]
    ensures Escaped(body) == body && WithoutIac(AfterSe(body)) == [65]
  {
    var last: seq<byte> := [65];
    assert body[1..] == [240] + last && ([240] + last)[1..] == last && last[1..] == [];
    assert Escaped(last) == last && WithoutIac(last) == last;
    assert Escaped(body[1..]) == [240] + last;
  }

  lemma CutShortRendered(body: seq<byte>, data: seq<byte>)
    requires body == [31, 240, 65] && Escaped(body) == body && data == [IAC, SB, 31, 240, 65, IAC, SE]
    ensures Render(Subnegotiation(body)) == data
  {}

  lemma AfterTheCut(item: Item, data: seq<byte>, size: Size)
    requires item == Subnegotiation([31, 240, 65]) && data == [IAC, SB, 31, 240, 65, IAC, SE]
    ensures Render(item) == data && Filter(data, size).out == [65]
  {
    CutShortParameters(item.body);
    CutShortRendered(item.body, data);
    SubnegotiationIsFiltered(item.body, size);
  }

  /** A 240 among the parameters of a subnegotiation sends what follows it to the terminal. */
  lemma SubnegotiationIsCutShort(item: Item, data: seq<byte>, size: Size)
    requires item == Subnegotiation([31, 240, 65]) && data == [IAC, SB, 31, 240, 65, IAC, SE]
    ensures RenderAll([item]) == data && RfcDataAll([item]) == [] && Filter(data, size).out == [65]
  {
    AfterTheCut(item, data, size);
    OneItem(item);
  }

  lemma OneItem(item: Item)
    ensures RenderAll([item]) == Render(item) && RfcDataAll([item]) == RfcData(item)
  {
    assert [item][1..] == [];
  }

  // ---- replies ----

  /** A window-size report, read back as RFC 1073 lays it out: the width first, high bytes first. */
  lemma NawsReadsBack(size: Size)
    requires size.cols < 65536 && size.rows < 65536
    ensures var b := Naws(size);
      && |b| == 9 && b[..3] == [255, 250, 31] && b[7..] == [255, 240]
      && b[3] as nat * 256 + b[4] as nat == size.cols && b[5] as nat * 256 + b[6] as nat == size.rows
  {}

  function AsciiOf(text: string): seq<byte>
    requires forall i :: 0 <= i < |text| ==> text[i] < 128 as char
  {
    seq(|text|, i requires 0 <= i < |text| => text[i] as byte)
  }

  lemma TerminalTypeSpelled()
    ensures TERMINAL_TYPE_IS == [255, 250, 24, 0] + AsciiOf("xterm-256color") + [255, 240]
  {}

  lemma RequestRendered(body: seq<byte>)
    requires body == [24, 1]
    ensures Render(Subnegotiation(body)) == [255, 250, 24, 1, 255, 240] && SE !in body
  {
    assert body[1..] == [1] && body[1..][1..] == [];
    assert Escaped(body[1..]) == [1];
  }

  /** A terminal-type request, as RFC 1091 spells it, gets the terminal's name. */
  lemma TerminalTypeIsNamed(request: seq<byte>, size: Size)
    requires request == [255, 250, 24, 1, 255, 240]
    ensures Filter(request, size) ==
      Filtered([], [[255, 250, 24, 0] + AsciiOf("xterm-256color") + [255, 240]])
  {
    var body: seq<byte> := [24, 1];
    RequestRendered(body);
    SubnegotiationIsFiltered(body, size);
    NothingAfterSe(body);
    TerminalTypeSpelled();
  }

  /** A request for the window size is agreed to, and answered with it. */
  lemma WindowSizeIsReported(size: Size)
    ensures Filter([255, 253, 31], size) == Filtered([], [[255, 251, 31], Naws(size)])
  {
    FilterItem(Negotiation(253, 31), size);
  }

  /** What this client is willing to do, and to let the server do. */
  predicate Performs(opt: byte) { opt == 24 || opt == 3 || opt == 31 }

  predicate LetsServer(opt: byte) { opt == 1 || opt == 3 }

  /** The command codes of RFC 854. */
  lemma CommandCodes()
    ensures SE == 240 && SB == 250 && WILL == 251 && WONT == 252 && DO == 253 && DONT == 254 && IAC == 255
  {}

  /** A negotiation that the chunk cuts off before its option is answered for option 0. */
  lemma CutNegotiationIsForZero(cmd: byte, size: Size)
    requires Negotiates(cmd as int)
    ensures Filter([IAC, cmd], size).sent == [[IAC, if cmd == DO || cmd == DONT then WONT else DONT, 0]]
  {
    assert Drop([IAC, cmd], 3) == [];
  }

  /**
   * Every negotiation in a chunk is answered at once in the terms RFC 854 provides: a request by the client's
   * consent or refusal, an announcement by its permission or ban, and a withdrawal always by giving in. Only
   * agreeing to NAWS says more, the window size.
   */
  lemma RepliesFollowTheRfc(cmd: byte, opt: byte, size: Size)
    requires Negotiates(cmd as int)
    ensures var sent := Filter([IAC, cmd, opt], size).sent;
      && sent != [] && |sent[0]| == 3 && sent[0][0] == IAC && sent[0][2] == opt
      && (sent[0][1] == WILL <==> cmd == DO && Performs(opt))
      && (sent[0][1] == WONT <==> cmd == DONT || (cmd == DO && !Performs(opt)))
      && (sent[0][1] == DO <==> cmd == WILL && LetsServer(opt))
      && (sent[0][1] == DONT <==> cmd == WONT || (cmd == WILL && !LetsServer(opt)))
      && sent[1..] == if cmd == DO && opt == OPT_NAWS then [Naws(size)] else []
  {
    FilterItem(Negotiation(cmd, opt), size);
  }
}
