/** VeNCrypt decisions (electron/services/vencrypt.ts). */
module Vencrypt {
  import opened Basics

  const SEC_NONE: nat := 1
  const SEC_VNC_AUTH: nat := 2
  const SEC_VENCRYPT: nat := 19
  /** A 32-bit VeNCrypt subtype, not a one-byte security type. */
  const SEC_PLAIN: nat := 256

  /** Security types the viewer negotiates on its own. */
  const NOVNC_TYPES: set<nat> := {1, 2, 6, 16, 22, 30, 113}

  /** The X.509 subtypes in order of preference, each with the authentication the tunnel carries. */
  const X509_SUBTYPES: seq<(nat, nat)> := [(262, SEC_PLAIN), (261, SEC_VNC_AUTH), (260, SEC_NONE)]

  /** VeNCrypt is on offer, and nothing the viewer could do by itself. */
  predicate NeedsBridge(types: seq<byte>) {
    && (exists i :: 0 <= i < |types| && types[i] == SEC_VENCRYPT)
    && (forall i :: 0 <= i < |types| ==> (types[i] as nat) !in NOVNC_TYPES)
  }

  /** A type the viewer handles, by its number. */
  predicate ViewerHandles(t: byte) { t == 1 || t == 2 || t == 6 || t == 16 || t == 22 || t == 30 || t == 113 }

  lemma BridgedIffOnlyVencryptHelps(types: seq<byte>)
    ensures NeedsBridge(types) <==> (19 as byte) in types && forall t :: t in types ==> !ViewerHandles(t)
  {
    forall i | 0 <= i < |types| ensures (types[i] as nat) in NOVNC_TYPES <==> ViewerHandles(types[i]) {}
    if NeedsBridge(types) {
      forall t | t in types ensures !ViewerHandles(t) {
        var i :| 0 <= i < |types| && types[i] == t;
      }
    }
    if (19 as byte) in types && forall t :: t in types ==> !ViewerHandles(t) {
      forall i | 0 <= i < |types| ensures !ViewerHandles(types[i]) { assert types[i] in types; }
    }
  }

  /** The first row of the table whose subtype is offered. */
  function FirstOffered(table: seq<(nat, nat)>, subtypes: seq<nat>): (r: nat)
    ensures r <= |table| && (r < |table| ==> table[r].0 in subtypes)
    ensures forall k :: 0 <= k < r ==> table[k].0 !in subtypes
  {
    if table == [] || table[0].0 in subtypes then 0 else 1 + FirstOffered(table[1..], subtypes)
  }

  /** The subtype to take over for: offered, and outranked by no other that was. */
  function PickTlsSubtype(subtypes: seq<nat>): (r: Option<nat>)
    ensures r.Some? ==>
      r.value in subtypes && 260 <= r.value <= 262 && forall s :: s in subtypes && 260 <= s <= 262 ==> s <= r.value
    ensures r.None? ==> forall s :: s in subtypes ==> !(260 <= s <= 262)
  {
    var i := FirstOffered(X509_SUBTYPES, subtypes);
    assert X509_SUBTYPES[0].0 == 262 && X509_SUBTYPES[1].0 == 261 && X509_SUBTYPES[2].0 == 260;
    if i < |X509_SUBTYPES| then Some(X509_SUBTYPES[i].0) else None
  }

  /** What runs inside the tunnel; None for a subtype the bridge never takes over. */
  function InnerAuth(subtype: nat): (r: Option<nat>)
    ensures r.Some? <==> 260 <= subtype <= 262
    ensures r == Some(256) <==> subtype == 262
    ensures r == Some(2) <==> subtype == 261
    ensures r == Some(1) <==> subtype == 260
  {
    var i := FirstOffered(X509_SUBTYPES, [subtype]);
    assert X509_SUBTYPES[0] == (262, SEC_PLAIN) && X509_SUBTYPES[1] == (261, SEC_VNC_AUTH)
      && X509_SUBTYPES[2] == (260, SEC_NONE);
    if i < |X509_SUBTYPES| then Some(X509_SUBTYPES[i].1) else None
  }
}
