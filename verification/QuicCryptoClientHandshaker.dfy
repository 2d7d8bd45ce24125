/** The client's side of the QUIC crypto handshake: a loop over states, with proofs that are verified at
    once or later, and a cache of server configurations that is shared with other connections. */
module QuicCryptoClientHandshaker {
  import opened Wrappers

  const MAX_CLIENT_HELLOS: nat := 4

  datatype State = Idle | Initialize | SendChlo | RecvRej | VerifyProof | VerifyProofComplete | RecvShlo | InitializeScup | NoState

  datatype Tag = Rej | Shlo | Scup | OtherTag

  /** A handshake message, and whether it came above the initial encryption level. */
  datatype Message = Message(tag: Tag, encrypted: bool)

  datatype AsyncStatus = Success | Failure | Pending

  /** What is cached for the server: whether there is a configuration and a signature for it, whether
      its proof is marked valid, and a counter that changes whenever the proof may have. */
  datatype CachedState = CachedState(hasConfig: bool, signed: bool, proofValid: bool, generation: nat) {
    predicate NeedsProof() {
      hasConfig && signed
    }

    /** A client hello may be sent: there is nothing to prove, or the proof is marked valid. */
    predicate MayBeUsed() {
      NeedsProof() ==> proofValid
    }

    function Cleared(): CachedState {
      CachedState(false, false, false, generation + 1)
    }

    function Invalidated(): CachedState {
      CachedState(false, signed, false, generation + 1)
    }
  }

  /** A new configuration or proof changes the counter and is not valid until it has been verified. */
  predicate UpdatedTo(before: CachedState, after: CachedState) {
    after == before || (after.generation > before.generation && !after.proofValid)
  }

  /** What is decided outside while the loop runs once: whether the cached configuration has not expired; whether
      a hello fits into a packet, or can be filled in; whether a configuration in a message can be
      processed, and what is cached then; what the verifier answers; and whether a server hello is
      accepted. No run of the loop asks for any of these twice. */
  datatype Outcome = Outcome(unexpired: bool, fits: bool, filled: bool, processed: bool, configAfter: CachedState, verifier: AsyncStatus, accepted: bool)

  /** What is cached after a configuration has been processed. */
  function Processed(c: CachedState, o: Outcome): CachedState {
    if UpdatedTo(c, o.configAfter) then o.configAfter else c
  }

  // ---- what closes a connection ----

  /** A hello is sent: it is not the fifth, and it fits, or can be filled in. */
  predicate HelloGoes(c: CachedState, n: nat, o: Outcome) {
    n < 4 && if c.hasConfig && c.proofValid && o.unexpired then o.filled else o.fits
  }

  /** What is cached is verified now or later, and a hello sent, or none is needed any more. */
  predicate ProofGoes(c: CachedState, n: nat, confirmed: bool, o: Outcome) {
    match o.verifier
    case Pending => true
    case Success => confirmed || HelloGoes(c.(proofValid := true), n, o)
    case Failure => n == 0 && HelloGoes(c.Cleared(), 0, o)
  }

  predicate RejectGoes(c: CachedState, n: nat, o: Outcome) {
    && o.processed
    && if Processed(c, o).signed && !Processed(c, o).proofValid then ProofGoes(Processed(c, o), n, false, o) else HelloGoes(Processed(c, o), n, o)
  }

  /** From this state the loop leaves the connection open. */
  predicate LoopGoes(state: State, message: Option<Message>, c: CachedState, n: nat, confirmed: bool, verifyOk: bool, current: bool, o: Outcome) {
    match state
    case Idle => false
    case NoState => true
    case SendChlo => HelloGoes(c, n, o)
    case Initialize => if c.hasConfig && c.signed then ProofGoes(c, n, false, o) else HelloGoes(c, n, o)
    case VerifyProof => ProofGoes(c, n, confirmed, o)
    case VerifyProofComplete =>
      if !verifyOk then n == 0 && HelloGoes(c.Cleared(), 0, o)
      else if current then confirmed || HelloGoes(c.(proofValid := true), n, o)
      else ProofGoes(c, n, confirmed, o)
    case RecvRej => message.Some? && message.value.tag == Rej && RejectGoes(c, n, o)
    case RecvShlo =>
      && message.Some?
      && if message.value.tag == Rej then !message.value.encrypted && RejectGoes(c, n, o)
         else message.value == Message(Shlo, true) && o.accepted
    case InitializeScup => c.hasConfig && c.signed ==> ProofGoes(c, n, true, o)
  }

  /** If nothing fails, the message is one that is waited for, and fewer than four hellos were sent, then the
      connection stays open. */
  lemma OpenWhenNothingFails(state: State, message: Option<Message>, c: CachedState, n: nat, confirmed: bool, verifyOk: bool, current: bool, o: Outcome)
    requires o.fits && o.filled && o.processed && o.accepted && o.verifier != Failure && n < 4
    requires state != Idle && (state == VerifyProofComplete ==> verifyOk)
    requires state == RecvRej ==> message.Some? && message.value.tag == Rej
    requires state == RecvShlo ==> message == Some(Message(Rej, false)) || message == Some(Message(Shlo, true))
    ensures LoopGoes(state, message, c, n, confirmed, verifyOk, current, o)
  {
  }

  /** If it is closed, one of these failed. */
  lemma ClosedBySomething(state: State, message: Option<Message>, c: CachedState, n: nat, confirmed: bool, verifyOk: bool, current: bool, o: Outcome)
    requires !LoopGoes(state, message, c, n, confirmed, verifyOk, current, o)
    ensures !o.fits || !o.filled || !o.processed || !o.accepted || o.verifier == Failure || n >= 4 || state == Idle
      || (state == VerifyProofComplete && !verifyOk)
      || (state == RecvRej && !(message.Some? && message.value.tag == Rej))
      || (state == RecvShlo && message != Some(Message(Rej, false)) && message != Some(Message(Shlo, true)))
  {
  }

  /** A client hello: whether it was a full one, and what was cached when it was made. */
  datatype Hello = Hello(full: bool, cached: CachedState)

  class QuicCryptoClientHandshaker {
    var nextState: State
    var numClientHellos: nat
    var generationCounter: nat
    var verifyOk: bool
    /** The callback of a verification that has been started, while it has neither called back nor been
        cancelled; and how many there have been. */
    var proofVerifyCallback: Option<nat>
    var callbacksMade: nat
    var encryptionEstablished: bool
    var handshakeConfirmed: bool
    var connected: bool
    var cached: CachedState
    /** The generations whose proof a verifier has accepted, the hellos sent, and whether a server hello
        has been accepted above the initial encryption level. */
    ghost var verified: set<nat>
    ghost var hellos: seq<Hello>
    ghost var serverHelloAccepted: bool

    ghost predicate HelloAllowed(h: Hello)
      reads `verified
    {
      h.cached.MayBeUsed() && (h.full ==> h.cached.hasConfig && h.cached.proofValid && h.cached.generation in verified)
    }

    /** What holds in every state, in the loop and outside it. */
    ghost predicate Sound()
      reads `cached, `verified, `numClientHellos, `hellos, `handshakeConfirmed, `serverHelloAccepted
    {
      && (cached.proofValid ==> cached.generation in verified)
      && |hellos| <= numClientHellos <= MAX_CLIENT_HELLOS
      && (forall i :: 0 <= i < |hellos| ==> HelloAllowed(hellos[i]))
      && (handshakeConfirmed ==> serverHelloAccepted && FullHelloSent())
    }

    ghost predicate FullHelloSent()
      reads `hellos
    {
      exists i :: 0 <= i < |hellos| && hellos[i].full
    }

    /** What holds whenever the loop is not running. */
    ghost predicate Valid()
      reads this
    {
      && Sound()
      && nextState in {Idle, RecvRej, VerifyProofComplete, RecvShlo, NoState}
      && (proofVerifyCallback.Some? <==> nextState == VerifyProofComplete)
      && (proofVerifyCallback.Some? ==> proofVerifyCallback.value < callbacksMade)
      && (nextState == RecvRej ==> hellos != [])
      && (nextState == RecvShlo ==> FullHelloSent())
      && (nextState == NoState && connected ==> handshakeConfirmed)
      && (handshakeConfirmed ==> nextState in {VerifyProofComplete, NoState, Idle})
    }

    constructor (cached: CachedState, verified: set<nat>)
      requires cached.proofValid ==> cached.generation in verified
      ensures Valid() && connected && nextState == Idle && hellos == [] && !handshakeConfirmed
    {
      nextState, numClientHellos, generationCounter, verifyOk := Idle, 0, 0, false;
      proofVerifyCallback, callbacksMade := None, 0;
      encryptionEstablished, handshakeConfirmed, connected, this.cached := false, false, true, cached;
      this.verified, hellos, serverHelloAccepted := verified, [], false;
    }

    /** What holds before each turn of the loop. */
    ghost predicate Looping(message: Option<Message>)
      reads this
    {
      && Sound() && proofVerifyCallback == None
      && (nextState in {RecvRej, RecvShlo} ==> message.Some? && hellos != [] && !handshakeConfirmed)
      && (nextState == RecvShlo ==> FullHelloSent())
      && (nextState == SendChlo ==> cached.MayBeUsed() && !handshakeConfirmed)
      && (nextState == Initialize ==> !handshakeConfirmed)
      && (nextState == VerifyProofComplete && verifyOk ==> generationCounter in verified)
      && (nextState == NoState && connected ==> handshakeConfirmed)
      && (nextState == InitializeScup ==> handshakeConfirmed)
    }

    /** How far the loop is from its end. */
    ghost function Rank(): nat
      reads this
    {
      match nextState
      case RecvShlo => 7
      case RecvRej => 6
      case InitializeScup => 5
      case Initialize => if cached.NeedsProof() then 5 else 2
      case VerifyProof => 4
      case VerifyProofComplete => 3
      case SendChlo => 1
      case Idle => 1
      case NoState => 0
    }

    ghost predicate Outdated()
      reads this
    {
      nextState == VerifyProofComplete && generationCounter != cached.generation
    }

    method CloseConnection()
      modifies `connected
      ensures !connected
    {
      connected := false;
    }

    /** Nothing sent, confirmed or verified is taken back. */
    twostate predicate Grown()
      reads `hellos, `verified, `handshakeConfirmed, `connected
    {
      && old(hellos) <= hellos && old(verified) <= verified
      && (old(handshakeConfirmed) ==> handshakeConfirmed) && (connected ==> old(connected))
    }

    method DoInitialize()
      requires Looping(None) && nextState == Idle && !handshakeConfirmed
      modifies `nextState
      ensures Looping(None) && nextState == (if cached.hasConfig && cached.signed then VerifyProof else SendChlo)
    {
      nextState := if cached.NeedsProof() then VerifyProof else SendChlo;
    }

    /** Sends a client hello, full if what is cached is complete, and waits for the answer. */
    method DoSendChlo(o: Outcome)
      requires Looping(None) && nextState == Idle && cached.MayBeUsed() && !handshakeConfirmed
      modifies this
      ensures Valid() && Grown() && !handshakeConfirmed && verified == old(verified) && callbacksMade == old(callbacksMade)
      ensures encryptionEstablished <==> nextState == RecvShlo
      ensures connected <==> old(connected) && HelloGoes(old(cached), old(numClientHellos), o)
      ensures var full := old(cached.hasConfig && cached.proofValid) && o.unexpired;
        if old(numClientHellos) >= 4 then
          !connected && nextState == Idle && hellos == old(hellos) && cached == old(cached)
        else if full && o.filled then
          connected == old(connected) && nextState == RecvShlo && hellos == old(hellos) + [Hello(true, cached)] && cached == old(cached)
        else if full then
          !connected && nextState == Idle && hellos == old(hellos) && cached == CachedState(false, old(cached).signed, false, old(cached).generation + 1)
        else if o.fits then
          connected == old(connected) && nextState == RecvRej && hellos == old(hellos) + [Hello(false, cached)] && cached == old(cached)
        else
          !connected && nextState == Idle && hellos == old(hellos) && cached == old(cached)
    {
      encryptionEstablished := false;
      if numClientHellos >= MAX_CLIENT_HELLOS {
        CloseConnection();
        return;
      }
      numClientHellos := numClientHellos + 1;
      var complete := cached.hasConfig && cached.proofValid && o.unexpired;
      if !complete {
        if !o.fits {
          CloseConnection();
          return;
        }
        nextState := RecvRej;
        hellos := hellos + [Hello(false, cached)];
        FullStays(old(hellos));
        return;
      }
      if !o.filled {
        cached := cached.Invalidated();
        CloseConnection();
        return;
      }
      nextState := RecvShlo;
      hellos := hellos + [Hello(true, cached)];
      FullStays(old(hellos));
      assert hellos[|hellos| - 1].full;
      encryptionEstablished := true;
    }

    /** What every hello that was sent had behind it. */
    lemma HelloProved(i: nat)
      requires Valid() && i < |hellos|
      ensures |hellos| <= 4
      ensures hellos[i].cached.hasConfig && hellos[i].cached.signed ==> hellos[i].cached.proofValid
      ensures hellos[i].full ==> hellos[i].cached.hasConfig && hellos[i].cached.proofValid && hellos[i].cached.generation in verified
    {
      assert HelloAllowed(hellos[i]);
    }

    lemma FullStays(before: seq<Hello>)
      requires before <= hellos
      ensures (exists i :: 0 <= i < |before| && before[i].full) ==> FullHelloSent()
    {
      if i :| 0 <= i < |before| && before[i].full {
        assert hellos[i].full;
      }
    }

    /** Whatever a message does to the cache, a changed configuration has to be verified again. */
    method ProcessConfig(o: Outcome) returns (ok: bool)
      requires Sound()
      modifies `cached
      ensures Sound() && UpdatedTo(old(cached), cached) && cached == Processed(old(cached), o) && ok == o.processed
    {
      if UpdatedTo(cached, o.configAfter) {
        cached := o.configAfter;
      }
      ok := o.processed;
    }

    method DoReceiveRej(message: Option<Message>, o: Outcome)
      requires Looping(message) && nextState == Idle && message.Some? && hellos != [] && !handshakeConfirmed
      modifies this
      ensures Looping(message) && Grown() && !handshakeConfirmed && numClientHellos == old(numClientHellos)
      ensures hellos == old(hellos) && callbacksMade == old(callbacksMade)
      ensures if message.value.tag == Rej && o.processed then
          && connected == old(connected) && cached == Processed(old(cached), o)
          && nextState == if !cached.proofValid && cached.signed then VerifyProof else SendChlo
        else
          !connected && nextState == NoState
    {
      if message.value.tag != Rej {
        nextState := NoState;
        CloseConnection();
        return;
      }
      var ok := ProcessConfig(o);
      if !ok {
        nextState := NoState;
        CloseConnection();
        return;
      }
      if !cached.proofValid {
        if cached.signed {
          nextState := VerifyProof;
          return;
        }
      }
      nextState := SendChlo;
    }

    /** Asks for the cached proof to be verified, at once or later. */
    method DoVerifyProof(o: Outcome) returns (status: AsyncStatus)
      requires Looping(None) && nextState == Idle
      modifies `nextState, `generationCounter, `verifyOk, `proofVerifyCallback, `callbacksMade, `verified
      ensures Sound() && Grown() && nextState == VerifyProofComplete && generationCounter == cached.generation
      ensures callbacksMade == old(callbacksMade) + 1 && status == o.verifier
      ensures proofVerifyCallback == if o.verifier == Pending then Some(old(callbacksMade)) else None
      ensures verifyOk <==> o.verifier == Success
      ensures verified == if verifyOk then old(verified) + {generationCounter} else old(verified)
    {
      nextState := VerifyProofComplete;
      generationCounter := cached.generation;
      var callback := callbacksMade;
      callbacksMade := callbacksMade + 1;
      verifyOk := false;
      status := o.verifier;
      match status {
        case Pending => proofVerifyCallback := Some(callback);
        case Failure =>
        case Success =>
          verifyOk := true;
          verified := verified + {generationCounter};
      }
    }

    /** A proof is marked valid only if it is the one that was verified. */
    method DoVerifyProofComplete(message: Option<Message>)
      requires Looping(message) && nextState == Idle && (verifyOk ==> generationCounter in verified)
      modifies this
      ensures Looping(message) && Grown() && generationCounter == old(generationCounter) && handshakeConfirmed == old(handshakeConfirmed)
      ensures verifyOk == old(verifyOk) && hellos == old(hellos) && numClientHellos == old(numClientHellos) && callbacksMade == old(callbacksMade)
      ensures old(verifyOk && generationCounter == cached.generation) ==>
        && cached == old(cached).(proofValid := true) && nextState == (if handshakeConfirmed then NoState else SendChlo)
      ensures old(verifyOk && generationCounter != cached.generation) ==> cached == old(cached) && nextState == VerifyProof
      ensures !verifyOk ==> if numClientHellos == 0 then cached == CachedState(false, false, false, old(cached).generation + 1) && nextState == Initialize else !connected && nextState == NoState
      ensures nextState != NoState || verifyOk ==> connected == old(connected)
      ensures nextState in {Initialize, NoState, VerifyProof, SendChlo}
    {
      if !verifyOk {
        if numClientHellos == 0 {
          cached := cached.Cleared();
          nextState := Initialize;
          return;
        }
        nextState := NoState;
        CloseConnection();
        return;
      }
      if generationCounter != cached.generation {
        nextState := VerifyProof;
      } else {
        cached := cached.(proofValid := true);
        if !handshakeConfirmed {
          nextState := SendChlo;
        } else {
          nextState := NoState;
        }
      }
    }

    /** A reject before the handshake is confirmed leads back; a server hello above the initial level that is
        accepted confirms it; everything else closes the connection. */
    method DoReceiveShlo(message: Option<Message>, o: Outcome)
      requires Looping(message) && nextState == Idle && message.Some? && hellos != [] && !handshakeConfirmed && FullHelloSent()
      modifies this
      ensures Looping(message) && Grown() && numClientHellos == old(numClientHellos)
      ensures hellos == old(hellos) && callbacksMade == old(callbacksMade) && cached == old(cached)
      ensures message.value == Message(Rej, false) ==> nextState == RecvRej && connected == old(connected) && !handshakeConfirmed
      ensures message.value == Message(Shlo, true) && o.accepted ==> nextState == NoState && connected == old(connected) && handshakeConfirmed
      ensures message.value != Message(Rej, false) && (message.value != Message(Shlo, true) || !o.accepted) ==>
        nextState == NoState && !connected && !handshakeConfirmed
    {
      nextState := NoState;
      if message.value.tag == Rej {
        if message.value.encrypted {
          CloseConnection();
          return;
        }
        nextState := RecvRej;
        return;
      }
      if message.value.tag != Shlo || !message.value.encrypted {
        CloseConnection();
        return;
      }
      if !o.accepted {
        CloseConnection();
        return;
      }
      serverHelloAccepted := true;
      handshakeConfirmed := true;
    }

    method DoInitializeServerConfigUpdate()
      requires Looping(None) && nextState == Idle && handshakeConfirmed
      modifies `nextState
      ensures Looping(None) && nextState == (if cached.hasConfig && cached.signed then VerifyProof else NoState)
    {
      nextState := if cached.NeedsProof() then VerifyProof else NoState;
    }

    /** While the connection is open the loop ends waiting: for a verification it has started, for the
        answer to the one hello it has sent, or for nothing once the handshake is confirmed. */
    twostate predicate Waiting()
      reads this
    {
      match nextState
      case VerifyProofComplete => proofVerifyCallback.Some? && hellos == old(hellos)
      case RecvRej => |hellos| == |old(hellos)| + 1 && !hellos[|old(hellos)|].full && encryptionEstablished == false
      case RecvShlo => |hellos| == |old(hellos)| + 1 && hellos[|old(hellos)|].full && encryptionEstablished
      case NoState => handshakeConfirmed && hellos == old(hellos)
      case _ => false
    }

    /** What the answer to a verification has led to so far. */
    twostate predicate Verifying()
      reads this
    {
      || (nextState == VerifyProofComplete && cached == old(cached) && verifyOk == old(verifyOk)
           && generationCounter == old(generationCounter) && numClientHellos == old(numClientHellos))
      || (old(verifyOk) && old(generationCounter == cached.generation) && nextState == SendChlo
           && cached == old(cached).(proofValid := true) && !old(handshakeConfirmed))
      || (old(verifyOk) && old(generationCounter != cached.generation))
      || (!old(verifyOk) && old(numClientHellos) == 0)
    }

    /** What the answer to a verification comes to: a failure leaves the connection open only before the
        first hello; an accepted proof of what is still cached is marked valid, and either a hello is
        sent with it or, after confirmation, all is done. */
    twostate predicate AsVerified()
      reads this
    {
      && (!old(verifyOk) ==> old(numClientHellos) == 0)
      && (old(verifyOk) && old(generationCounter == cached.generation) ==>
           if old(handshakeConfirmed) then nextState == NoState && cached == old(cached).(proofValid := true)
           else |hellos| == |old(hellos)| + 1 && hellos[|old(hellos)|].cached == old(cached).(proofValid := true))
    }

    /** From here the loop leaves the connection open. */
    ghost predicate Goes(message: Option<Message>, o: Outcome)
      reads `nextState, `cached, `numClientHellos, `handshakeConfirmed, `verifyOk, `generationCounter, `connected
    {
      connected && LoopGoes(nextState, message, cached, numClientHellos, handshakeConfirmed, verifyOk, generationCounter == cached.generation, o)
    }

    /** Nearer to the end of the loop: no longer with an outdated answer, or in a later state. */
    twostate predicate Nearer()
      reads this
    {
      (old(Outdated()) && !Outdated()) || (old(Outdated()) == Outdated() && Rank() < old(Rank()))
    }

    /** One turn in a state that is about a proof. */
    method TakeProofTurn(message: Option<Message>, o: Outcome) returns (more: bool)
      requires Looping(message) && nextState in {VerifyProof, VerifyProofComplete}
      modifies this
      ensures Grown() && handshakeConfirmed == old(handshakeConfirmed)
      ensures if more then Goes(message, o) == old(Goes(message, o)) else connected == old(Goes(message, o))
      ensures more ==> Looping(message) && nextState !in {NoState, RecvShlo} && hellos == old(hellos) && Nearer()
      ensures !more ==> Valid() && (connected ==> Waiting())
      ensures callbacksMade >= old(callbacksMade) && (proofVerifyCallback == None || proofVerifyCallback.value >= old(callbacksMade))
      ensures old(nextState) == VerifyProofComplete ==> if more then Verifying() else connected ==> AsVerified()
    {
      hide QuicCryptoClientHandshaker.Sound, QuicCryptoClientHandshaker.FullHelloSent, HelloGoes, Processed, UpdatedTo;
      var state := nextState;
      nextState := Idle;
      var status := Success;
      if state == VerifyProof {
        status := DoVerifyProof(o);
      } else {
        DoVerifyProofComplete(message);
      }
      more := status != Pending && nextState != NoState;
    }

    /** One turn of the loop, which says whether there is another. */
    method TakeTurn(message: Option<Message>, o: Outcome) returns (more: bool)
      requires Looping(message) && nextState != NoState
      modifies this
      ensures Grown() && (handshakeConfirmed && !old(handshakeConfirmed) ==> !more && message == Some(Message(Shlo, true)) && old(nextState) == RecvShlo)
      ensures if more then Goes(message, o) == old(Goes(message, o)) else connected == old(Goes(message, o))
      ensures more ==> Looping(message) && nextState !in {NoState, RecvShlo} && hellos == old(hellos) && Nearer()
      ensures !more ==> Valid() && (connected ==> Waiting())
      ensures callbacksMade >= old(callbacksMade) && (proofVerifyCallback == None || proofVerifyCallback.value >= old(callbacksMade))
      ensures old(nextState) == RecvShlo && message == Some(Message(Shlo, true)) && o.accepted ==> !more && handshakeConfirmed
      ensures old(nextState) == VerifyProofComplete ==> if more then Verifying() else connected ==> AsVerified()
      ensures old(nextState) == SendChlo ==> !more && (connected ==> |hellos| == |old(hellos)| + 1 && hellos[|old(hellos)|].cached == old(cached))
    {
      hide QuicCryptoClientHandshaker.Sound, QuicCryptoClientHandshaker.FullHelloSent, HelloGoes, Processed, UpdatedTo;
      if nextState in {VerifyProof, VerifyProofComplete} {
        more := TakeProofTurn(message, o);
        return;
      }
      var state := nextState;
      nextState := Idle;
      match state {
        case Initialize => DoInitialize();
        case SendChlo =>
          DoSendChlo(o);
          return false;
        case RecvRej => DoReceiveRej(message, o);
        case RecvShlo => DoReceiveShlo(message, o);
        case Idle =>
          CloseConnection();
          return false;
        case InitializeScup => DoInitializeServerConfigUpdate();
        case _ => assert false;
      }
      more := nextState != NoState;
    }

    /** Runs the handshake as far as it can go. It ends whatever the verifier, the cache and the messages
        do; and it is never entered with nothing left to do. */
    method DoHandshakeLoop(message: Option<Message>, o: Outcome)
      requires Looping(message) && nextState != NoState
      modifies this
      ensures Valid() && Grown()
      ensures handshakeConfirmed && !old(handshakeConfirmed) ==> message == Some(Message(Shlo, true)) && old(nextState) == RecvShlo
      ensures connected <==> old(Goes(message, o))
      ensures old(connected) && old(nextState) == RecvShlo && message == Some(Message(Shlo, true)) && o.accepted ==> handshakeConfirmed
      ensures connected ==> Waiting()
      ensures proofVerifyCallback == None || proofVerifyCallback.value >= old(callbacksMade)
      ensures connected && old(nextState) == VerifyProofComplete ==> AsVerified()
    {
      hide QuicCryptoClientHandshaker.Valid, QuicCryptoClientHandshaker.Looping, QuicCryptoClientHandshaker.Goes, QuicCryptoClientHandshaker.Rank, QuicCryptoClientHandshaker.Outdated;
      var more := true;
      while more
        invariant Grown() && (more ==> Looping(message) && nextState != NoState)
        invariant !more ==> Valid() && (connected ==> Waiting())
        invariant if more then Goes(message, o) == old(Goes(message, o)) else connected == old(Goes(message, o))
        invariant handshakeConfirmed && !old(handshakeConfirmed) ==> !more && message == Some(Message(Shlo, true)) && old(nextState) == RecvShlo
        invariant nextState == RecvShlo && more ==> old(nextState) == RecvShlo
        invariant old(nextState) == RecvShlo && message == Some(Message(Shlo, true)) && o.accepted ==> if more then nextState == RecvShlo else handshakeConfirmed
        invariant more ==> hellos == old(hellos)
        invariant callbacksMade >= old(callbacksMade) && (proofVerifyCallback == None || proofVerifyCallback.value >= old(callbacksMade) || more)
        invariant old(nextState) == VerifyProofComplete ==> if more then Verifying() else connected ==> AsVerified()
        decreases more, Outdated(), Rank()
      {
        more := TakeTurn(message, o);
      }
    }

    method CryptoConnect(o: Outcome) returns (ok: bool)
      requires Valid() && nextState == Idle && connected && hellos == []
      modifies this
      ensures Valid() && Grown() && ok == connected && (ok ==> Waiting())
      ensures connected <==> LoopGoes(Initialize, None, old(cached), old(numClientHellos), false, false, false, o)
    {
      nextState := Initialize;
      DoHandshakeLoop(None, o);
      ok := connected;
    }

    /** A message arrives. While the connection is open and no verification is outstanding, the loop is
        never entered with nothing to do. */
    method OnHandshakeMessage(message: Message, o: Outcome)
      requires Valid() && connected && (proofVerifyCallback.Some? ==> handshakeConfirmed || message.tag == Scup)
      modifies this
      ensures Valid() && Grown()
      ensures handshakeConfirmed && !old(handshakeConfirmed) ==> message == Message(Shlo, true) && old(FullHelloSent())
      ensures connected ==> Waiting() && (message.tag == Scup <==> old(handshakeConfirmed))
      ensures message.tag != Scup && !old(handshakeConfirmed) ==>
        (connected <==> LoopGoes(old(nextState), Some(message), old(cached), old(numClientHellos), false, old(verifyOk), old(generationCounter == cached.generation), o))
      ensures message.tag == Scup && old(handshakeConfirmed) ==>
        (connected <==> o.processed && LoopGoes(InitializeScup, None, Processed(old(cached), o), old(numClientHellos), true, old(verifyOk), false, o))
      ensures message == Message(Shlo, true) && o.accepted && old(nextState) == RecvShlo && !old(handshakeConfirmed) ==> handshakeConfirmed && connected
    {
      if message.tag == Scup {
        if !handshakeConfirmed {
          CloseConnection();
          return;
        }
        HandleServerConfigUpdateMessage(o);
        return;
      }
      if handshakeConfirmed {
        CloseConnection();
        return;
      }
      DoHandshakeLoop(Some(message), o);
    }

    /** An outstanding verification is cancelled: its callback is not the one waited for any more. */
    method HandleServerConfigUpdateMessage(o: Outcome)
      requires Valid() && handshakeConfirmed
      modifies this
      ensures Valid() && Grown() && handshakeConfirmed
      ensures connected ==> Waiting() && (proofVerifyCallback.Some? ==> proofVerifyCallback != old(proofVerifyCallback))
      ensures connected <==> old(connected) && o.processed && LoopGoes(InitializeScup, None, Processed(old(cached), o), old(numClientHellos), true, old(verifyOk), false, o)
    {
      var ok := ProcessConfig(o);
      if !ok {
        CloseConnection();
        return;
      }
      proofVerifyCallback := None;
      nextState := InitializeScup;
      DoHandshakeLoop(None, o);
    }

    /** A verifier calls back; nothing comes of it if the callback has been cancelled. */
    method Run(callback: nat, ok: bool, o: Outcome)
      requires Valid()
      modifies this
      ensures Valid() && Grown()
      ensures proofVerifyCallback == old(proofVerifyCallback) ==> old(proofVerifyCallback) != Some(callback)
      ensures old(proofVerifyCallback) != Some(callback) ==> nextState == old(nextState) && cached == old(cached) && hellos == old(hellos) && verified == old(verified) && connected == old(connected)
      ensures old(proofVerifyCallback) == Some(callback) ==> (connected <==> old(connected) && LoopGoes(VerifyProofComplete, None, old(cached), old(numClientHellos), old(handshakeConfirmed), ok, old(generationCounter == cached.generation), o))
      ensures old(proofVerifyCallback) == Some(callback) && connected ==>
        && Waiting()
        && (!ok ==> old(numClientHellos) == 0)
        && (ok && old(generationCounter == cached.generation) ==>
             if old(handshakeConfirmed) then nextState == NoState && cached == old(cached).(proofValid := true)
             else |hellos| == |old(hellos)| + 1 && hellos[|old(hellos)|].cached == old(cached).(proofValid := true))
    {
      if proofVerifyCallback != Some(callback) {
        return;
      }
      verifyOk := ok;
      if ok {
        verified := verified + {generationCounter};
      }
      proofVerifyCallback := None;
      DoHandshakeLoop(None, o);
    }

    /** Another connection to the same server changes the cache, between turns of this one. */
    method CacheChanges(after: CachedState, ghost accepted: set<nat>)
      requires Valid() && after.generation >= cached.generation
      requires after.proofValid ==> after.generation in verified + accepted
      modifies `cached, `verified
      ensures Valid() && Grown() && cached == after
    {
      verified := verified + accepted;
      cached := after;
    }
  }
}
