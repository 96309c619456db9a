/**
 The two-step identity chain of a direct session. The rendezvous server signs
 the peer's identity and signing key; the peer signs its sealing key with that
 key; the client seals a freshly made stream key to it. Signature checking is an
 arbitrary function, and every answer of the network is an input. The laws are
 about runs of attempts against the statements that were really signed.
 */
module SecureHandshake {
  import opened Strings

  type Key = seq<int>
  type Blob = seq<int>

  /** An identity and the key it is said to have. */
  datatype Claim = Claim(id: string, key: Key)

  /** The claim a blob carries, when its signature verifies under the given key. */
  type Verify = (Blob, Key) -> Option<Claim>

  datatype Incoming =
    | Timeout
    | Reset
    | ReadError
    | Unparsable
    | OtherMessage
    | SignedId(blob: Blob)

  /** What the client puts on the wire: nothing of interest, or a key sealed to a recipient. */
  datatype Outgoing = EmptyMessage | EmptyKey | SealedKey(recipient: Key, key: Key)

  /** A send works, is refused, or reports a failure although the message went out. */
  datatype Sending = Works | Refused | Unreported

  datatype Outcome = Failed | Ready(peerKey: Option<Key>)

  /** Everything one attempt meets; `generated` is the stream key made for it. */
  datatype Attempt = Attempt(peerId: string, signed: Blob, serverKey: Option<Key>, incoming: Incoming,
                             sending: Sending, generated: Key, direct: bool, hostKey: string)

  class Stream {
    var key: Option<Key>
    var sent: seq<Outgoing>

    constructor ()
      ensures key.None? && sent == []
    {
      key, sent := None, [];
    }

    method Send(message: Outgoing, sending: Sending)
      modifies this`sent
      ensures sent == if sending.Refused? then old(sent) else old(sent) + [message]
    {
      if !sending.Refused? { sent := sent + [message]; }
    }
  }

  // -------------------------------------------------------------- one attempt

  /** The signing key the rendezvous server vouches for, for this very peer. */
  function VouchedKey(verify: Verify, a: Attempt): Option<Key> {
    if a.signed == [] || a.serverKey.None? then None
    else
      var claim := verify(a.signed, a.serverKey.value);
      if claim.Some? && claim.value.id == a.peerId then Some(claim.value.key) else None
  }

  /** The sealing key the peer signed under the vouched key, in its own name. */
  function ProvenKey(verify: Verify, a: Attempt): Option<Key> {
    var vouched := VouchedKey(verify, a);
    if vouched.None? || !a.incoming.SignedId? then None
    else
      var claim := verify(a.incoming.blob, vouched.value);
      if claim.Some? && claim.value.id == a.peerId then Some(claim.value.key) else None
  }

  /**
   The stream is keyed, with the key made for this attempt, exactly when both
   links of the chain hold and the key could be sent; a key goes out sealed to
   the proven key only, also when its sending is reported as failed. The key
   returned is the vouched one, never one the peer merely claims.
   */
  method SecureConnection(verify: Verify, a: Attempt, conn: Stream) returns (r: Outcome)
    requires conn.key.None? && conn.sent == []
    modifies conn
    ensures r.Ready? <==>
              && a.sending.Works?
              && (VouchedKey(verify, a).Some? ==> a.incoming !in {Timeout, Reset, ReadError})
    ensures r.Ready? ==> r.peerKey == VouchedKey(verify, a)
    ensures conn.key == if ProvenKey(verify, a).Some? && a.sending.Works? then Some(a.generated) else None
    ensures conn.key.Some? ==> r.Ready?
    ensures ProvenKey(verify, a).Some? && !a.sending.Refused? ==>
              conn.sent == [SealedKey(ProvenKey(verify, a).value, a.generated)]
    ensures ProvenKey(verify, a).None? || a.sending.Refused? ==> forall m <- conn.sent :: !m.SealedKey?
  {
    var signPk: Option<Key> := None;
    var optionPk: Option<Key> := None;
    if a.signed != [] {
      if a.serverKey.Some? {
        var claim := verify(a.signed, a.serverKey.value);
        if claim.Some? && claim.value.id == a.peerId {
          signPk := Some(claim.value.key);
          optionPk := Some(claim.value.key);
        }
      }
    }
    if signPk.None? {
      // an empty message, in case the other side waits for one
      conn.Send(EmptyMessage, a.sending);
      if !a.sending.Works? { return Failed; }
      return Ready(optionPk);
    }
    match a.incoming {
      case Timeout => return Failed;
      case ReadError => return Failed;
      case Reset => return Failed;
      case Unparsable =>
        conn.Send(EmptyMessage, a.sending);
      case OtherMessage =>
        conn.Send(EmptyMessage, a.sending);
      case SignedId(blob) =>
        var claim := verify(blob, signPk.value);
        if claim.None? {
          // falls back to a plain stream
          conn.Send(EmptyKey, a.sending);
        } else if claim.value.id != a.peerId {
          conn.Send(EmptyMessage, a.sending);
        } else {
          conn.Send(SealedKey(claim.value.key, a.generated), a.sending);
          if a.sending.Works? { conn.key := Some(a.generated); }
        }
    }
    if !a.sending.Works? { return Failed; }
    return Ready(optionPk);
  }

  /** What a session stands on. */
  datatype Session = Session(peerId: string, serverKey: Key, peerKey: Key, sealKey: Key, streamKey: Key,
                             hostKey: string)

  /** The session an attempt ends in, if any. */
  function Established(verify: Verify, encode: Key -> string, a: Attempt): Option<Session> {
    var proven := ProvenKey(verify, a);
    if a.direct && a.sending.Works? && proven.Some? && encode(VouchedKey(verify, a).value) == a.hostKey
    then Some(Session(a.peerId, a.serverKey.value, VouchedKey(verify, a).value, proven.value, a.generated, a.hostKey))
    else None
  }

  /** A stream key sent away sealed: on whose word, and to which recipient. */
  datatype Sealing = Sealing(peerId: string, serverKey: Key, peerKey: Key, recipient: Key, key: Key)

  /** The key an attempt sends away, and to whom, whether or not a session comes of it. */
  function Sealed(verify: Verify, a: Attempt): Option<Sealing> {
    var proven := ProvenKey(verify, a);
    if a.direct && !a.sending.Refused? && proven.Some?
    then Some(Sealing(a.peerId, a.serverKey.value, VouchedKey(verify, a).value, proven.value, a.generated))
    else None
  }

  /** The guards around the handshake: only a direct, keyed stream with the permitted peer key is handed out. */
  method StartSession(verify: Verify, encode: Key -> string, a: Attempt, conn: Stream) returns (peerKey: Option<Key>)
    requires conn.key.None? && conn.sent == []
    modifies conn
    ensures peerKey.Some? <==> Established(verify, encode, a).Some?
    ensures peerKey.Some? ==>
              var s := Established(verify, encode, a).value; peerKey.value == s.peerKey && conn.key == Some(s.streamKey)
    ensures forall m <- conn.sent :: m.SealedKey? ==>
              Sealed(verify, a).Some? && m == SealedKey(Sealed(verify, a).value.recipient, Sealed(verify, a).value.key)
    ensures Sealed(verify, a).Some? ==>
              conn.sent == [SealedKey(Sealed(verify, a).value.recipient, Sealed(verify, a).value.key)]
  {
    if !a.direct {
      return None;
    }
    var r := SecureConnection(verify, a, conn);
    if r.Failed? {
      return None;
    }
    if !(conn.key.Some? && r.peerKey.Some?) {
      return None;
    }
    if encode(r.peerKey.value) != a.hostKey {
      return None;
    }
    return r.peerKey;
  }

  /**
   An attempt ends in a session exactly when it is direct and its send works,
   the server's blob is signed for this peer, the peer's answer is signed under
   the key it names, again for this peer, and that key is the permitted one.
   */
  lemma EstablishedIff(verify: Verify, encode: Key -> string, a: Attempt, s: Session)
    ensures Established(verify, encode, a) == Some(s) <==>
            && a.direct && a.sending == Works
            && a.signed != [] && a.serverKey == Some(s.serverKey)
            && verify(a.signed, s.serverKey) == Some(Claim(s.peerId, s.peerKey))
            && a.incoming.SignedId? && verify(a.incoming.blob, s.peerKey) == Some(Claim(s.peerId, s.sealKey))
            && s.peerId == a.peerId && s.streamKey == a.generated
            && encode(s.peerKey) == s.hostKey == a.hostKey
  {
  }

  /** A key is sealed away exactly when both links hold on a direct attempt and the message goes out at all. */
  lemma SealedIff(verify: Verify, a: Attempt, s: Sealing)
    ensures Sealed(verify, a) == Some(s) <==>
            && a.direct && (a.sending == Works || a.sending == Unreported)
            && a.signed != [] && a.serverKey == Some(s.serverKey)
            && verify(a.signed, s.serverKey) == Some(Claim(s.peerId, s.peerKey))
            && a.incoming.SignedId? && verify(a.incoming.blob, s.peerKey) == Some(Claim(s.peerId, s.recipient))
            && s.peerId == a.peerId && s.key == a.generated
  {
  }

  // ------------------------------------------------------------ runs of attempts

  /** A claim somebody signed with their own key. */
  datatype Statement = Statement(signer: Key, claim: Claim)

  datatype Event = Signs(statement: Statement) | Tries(attempt: Attempt)

  datatype World = World(
    statements: set<Statement>,
    generated: seq<Key>,          // stream keys made so far
    sealings: seq<Sealing>,       // everything ever sealed and sent
    sessions: seq<Session>)

  const START: World := World({}, [], [], [])

  function Step(verify: Verify, encode: Key -> string, w: World, e: Event): World {
    match e
    case Signs(statement) => w.(statements := w.statements + {statement})
    case Tries(a) =>
      var (sealing, session) := (Sealed(verify, a), Established(verify, encode, a));
      w.(generated := w.generated + [a.generated],
         sealings := if sealing.Some? then w.sealings + [sealing.value] else w.sealings,
         sessions := if session.Some? then w.sessions + [session.value] else w.sessions)
  }

  function Run(verify: Verify, encode: Key -> string, events: seq<Event>): World {
    if events == [] then START
    else Step(verify, encode, Run(verify, encode, events[..|events| - 1]), events[|events| - 1])
  }

  /** Signatures are not forged: what verifies in an attempt was signed before it. */
  predicate Unforged(verify: Verify, w: World, blob: Blob, key: Key) {
    var claim := verify(blob, key);
    claim.Some? ==> Statement(key, claim.value) in w.statements
  }

  /** The network shows no forgery, and the stream key is a new one. */
  predicate Fair(verify: Verify, w: World, e: Event) {
    e.Tries? ==>
      var a := e.attempt;
      && (a.serverKey.Some? ==> Unforged(verify, w, a.signed, a.serverKey.value))
      && (a.incoming.SignedId? && VouchedKey(verify, a).Some? ==>
            Unforged(verify, w, a.incoming.blob, VouchedKey(verify, a).value))
      && a.generated !in w.generated
  }

  ghost predicate FairRun(verify: Verify, encode: Key -> string, events: seq<Event>) {
    forall k :: 0 <= k < |events| ==> Fair(verify, Run(verify, encode, events[..k]), events[k])
  }

  /** Both links of the chain were really signed. */
  predicate Chained(statements: set<Statement>, s: Sealing) {
    && Statement(s.serverKey, Claim(s.peerId, s.peerKey)) in statements
    && Statement(s.peerKey, Claim(s.peerId, s.recipient)) in statements
  }

  ghost predicate AllChained(w: World) {
    forall i :: 0 <= i < |w.sealings| ==> Chained(w.statements, w.sealings[i])
  }

  /** Every key sealed was made for it, and none was sealed twice. */
  ghost predicate SealedOnce(w: World) {
    && (forall i :: 0 <= i < |w.sealings| ==> w.sealings[i].key in w.generated)
    && (forall i, j :: 0 <= i < j < |w.sealings| ==> w.sealings[i].key != w.sealings[j].key)
  }

  function SealingOf(s: Session): Sealing {
    Sealing(s.peerId, s.serverKey, s.peerKey, s.sealKey, s.streamKey)
  }

  /** Every session has the permitted peer key and was sealed, and sessions share no stream key. */
  ghost predicate KeysPlaced(encode: Key -> string, w: World) {
    && (forall i :: 0 <= i < |w.sessions| ==>
          SealingOf(w.sessions[i]) in w.sealings && encode(w.sessions[i].peerKey) == w.sessions[i].hostKey)
    && (forall i, j :: 0 <= i < j < |w.sessions| ==> w.sessions[i].streamKey != w.sessions[j].streamKey)
    && (forall i :: 0 <= i < |w.sessions| ==> w.sessions[i].streamKey in w.generated)
  }

  lemma SealedIsChained(verify: Verify, w: World, a: Attempt)
    requires Fair(verify, w, Tries(a)) && Sealed(verify, a).Some?
    ensures Chained(w.statements, Sealed(verify, a).value)
  {
  }

  lemma EstablishedIsSealed(verify: Verify, encode: Key -> string, a: Attempt)
    requires Established(verify, encode, a).Some?
    ensures Sealed(verify, a) == Some(SealingOf(Established(verify, encode, a).value))
  {
  }

  lemma StepKeepsChained(verify: Verify, encode: Key -> string, w: World, e: Event)
    requires AllChained(w) && Fair(verify, w, e)
    ensures AllChained(Step(verify, encode, w, e))
  {
    if e.Tries? && Sealed(verify, e.attempt).Some? {
      SealedIsChained(verify, w, e.attempt);
    }
  }

  lemma StepKeepsSealings(verify: Verify, encode: Key -> string, w: World, e: Event)
    requires SealedOnce(w) && Fair(verify, w, e)
    ensures SealedOnce(Step(verify, encode, w, e))
  {
    if e.Tries? {
      var t := Step(verify, encode, w, e);
      assert forall k :: k in w.generated ==> k in t.generated;
      assert e.attempt.generated == t.generated[|w.generated|];
    }
  }

  lemma StepKeepsKeys(verify: Verify, encode: Key -> string, w: World, e: Event)
    requires KeysPlaced(encode, w) && Fair(verify, w, e)
    ensures KeysPlaced(encode, Step(verify, encode, w, e))
  {
    if e.Tries? {
      var t := Step(verify, encode, w, e);
      assert forall k :: k in w.generated ==> k in t.generated;
      assert forall p :: p in w.sealings ==> p in t.sealings;
      assert e.attempt.generated == t.generated[|w.generated|];
      if Established(verify, encode, e.attempt).Some? {
        EstablishedIsSealed(verify, encode, e.attempt);
        assert t.sealings[|w.sealings|] == Sealed(verify, e.attempt).value;
      }
    }
  }

  lemma {:induction false} RunKeepsInv(verify: Verify, encode: Key -> string, events: seq<Event>)
    requires FairRun(verify, encode, events)
    ensures var w := Run(verify, encode, events); AllChained(w) && SealedOnce(w) && KeysPlaced(encode, w)
  {
    if events != [] {
      var n := |events| - 1;
      var shorter := events[..n];
      assert forall k :: 0 <= k < n ==> shorter[..k] == events[..k] && shorter[k] == events[k];
      RunKeepsInv(verify, encode, shorter);
      StepKeepsChained(verify, encode, Run(verify, encode, shorter), events[n]);
      StepKeepsSealings(verify, encode, Run(verify, encode, shorter), events[n]);
      StepKeepsKeys(verify, encode, Run(verify, encode, shorter), events[n]);
    }
  }

  /**
   In every fair run each session rests on two statements really signed, its
   peer key is the permitted one, and its stream key was sealed to the proven
   key, to nobody else, and serves no other session.
   */
  lemma SessionsAreChained(verify: Verify, encode: Key -> string, events: seq<Event>, i: nat)
    requires FairRun(verify, encode, events) && i < |Run(verify, encode, events).sessions|
    ensures var w := Run(verify, encode, events);
            var s := w.sessions[i];
            && Chained(w.statements, SealingOf(s)) && encode(s.peerKey) == s.hostKey
            && SealingOf(s) in w.sealings
            && (forall p <- w.sealings :: p.key == s.streamKey ==> p == SealingOf(s))
            && (forall j :: 0 <= j < |w.sessions| && w.sessions[j].streamKey == s.streamKey ==> j == i)
  {
    RunKeepsInv(verify, encode, events);
    var w := Run(verify, encode, events);
    var s := w.sessions[i];
    forall p <- w.sealings | p.key == s.streamKey
      ensures p == SealingOf(s)
    {
      KeySealedOnce(w, p, SealingOf(s));
    }
  }

  lemma KeySealedOnce(w: World, p: Sealing, q: Sealing)
    requires SealedOnce(w) && p in w.sealings && q in w.sealings && p.key == q.key
    ensures p == q
  {
    var i :| 0 <= i < |w.sealings| && w.sealings[i] == p;
    var j :| 0 <= j < |w.sealings| && w.sealings[j] == q;
  }

  /** A server that signs for each identity only the key registered for it. */
  ghost predicate HonestServer(w: World, server: Key, registry: map<string, Key>) {
    forall s <- w.statements :: s.signer == server ==> s.claim.id in registry && registry[s.claim.id] == s.claim.key
  }

  /** The owner of a signing key signs, in its own name, only sealing keys it holds. */
  ghost predicate HonestPeer(w: World, id: string, key: Key, own: set<Key>) {
    forall s <- w.statements :: s.signer == key && s.claim.id == id ==> s.claim.key in own
  }

  /**
   With an honest server and an honest peer nobody can stand in between: every
   key ever sealed for that peer through that server, in a session or in an
   attempt that failed, rests on the registered key and went to a key the peer
   itself holds, and it was never sealed to anyone else.
   */
  lemma NobodyInBetween(verify: Verify, encode: Key -> string, events: seq<Event>, p: Sealing,
                        registry: map<string, Key>, own: set<Key>)
    requires FairRun(verify, encode, events) && p in Run(verify, encode, events).sealings
    requires HonestServer(Run(verify, encode, events), p.serverKey, registry)
    requires p.peerId in registry ==> HonestPeer(Run(verify, encode, events), p.peerId, registry[p.peerId], own)
    ensures p.peerId in registry && p.peerKey == registry[p.peerId] && p.recipient in own
    ensures forall q <- Run(verify, encode, events).sealings :: q.key == p.key ==> q == p
  {
    RunKeepsInv(verify, encode, events);
    var w := Run(verify, encode, events);
    assert Chained(w.statements, p);
    assert Statement(p.serverKey, Claim(p.peerId, p.peerKey)) in w.statements;
    assert Statement(p.peerKey, Claim(p.peerId, p.recipient)) in w.statements;
    forall q <- w.sealings | q.key == p.key
      ensures q == p
    {
      KeySealedOnce(w, q, p);
    }
  }
}
