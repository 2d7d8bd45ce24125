/** Which stream ids the peer may still use, in the versions of QUIC where ids of both ends alternate and
    id zero stands for none. */
module LegacyQuicStreamIdManager {

  const MAX_AVAILABLE_STREAMS_MULTIPLIER: nat := 10
  const INVALID_STREAM_ID: nat := 0

  /** Which end this is, and whether the handshake has a stream of its own. */
  datatype Role = Client(cryptoFrames: bool) | Server(cryptoFrames: bool)

  function FirstOutgoing(role: Role): nat {
    match role
    case Client(cryptoFrames) => if cryptoFrames then 1 else 3
    case Server(_) => 2
  }

  function FirstIncoming(role: Role): nat {
    match role
    case Client(_) => 2
    case Server(cryptoFrames) => if cryptoFrames then 1 else 3
  }

  function InitialLargest(role: Role): nat {
    if role.Server? && !role.cryptoFrames then 1 else INVALID_STREAM_ID
  }

  /** The ids of the peer from one up to another. */
  function PeerIds(low: nat, high: nat): set<nat> {
    set id: nat | low <= id < high && id % 2 == low % 2
  }

  lemma {:induction false} PeerIdsCount(low: nat, high: nat)
    requires low <= high && low % 2 == high % 2
    ensures |PeerIds(low, high)| == (high - low) / 2
    decreases high
  {
    if low == high {
      assert PeerIds(low, high) == {};
    } else {
      PeerIdsCount(low, high - 2);
      assert PeerIds(low, high) == PeerIds(low, high - 2) + {high - 2};
    }
  }

  class LegacyQuicStreamIdManager {
    const role: Role
    var maxOpenOutgoingStreams: nat
    var maxOpenIncomingStreams: nat
    var nextOutgoingStreamId: nat
    var availableStreams: set<nat>
    var largestPeerCreatedStreamId: nat
    var connected: bool
    /** The ids of the peer that were accepted, and those handed out here. */
    ghost var accepted: set<nat>
    ghost var handedOut: set<nat>

    /** An id that the peer may use. */
    ghost predicate PeerId(id: nat) {
      id >= FirstIncoming(role) && id % 2 == FirstIncoming(role) % 2
    }

    /** The available streams are exactly the ids of the peer below the largest that were not accepted. */
    ghost predicate IncomingValid()
      reads `availableStreams, `largestPeerCreatedStreamId, `accepted
    {
      && (largestPeerCreatedStreamId == InitialLargest(role) || (PeerId(largestPeerCreatedStreamId) && largestPeerCreatedStreamId in accepted))
      && availableStreams == PeerIds(FirstIncoming(role), largestPeerCreatedStreamId) - accepted
      && (forall id :: id in accepted ==> PeerId(id) && id <= largestPeerCreatedStreamId)
    }

    /** The ids handed out are exactly the own ids below the next one. */
    ghost predicate OutgoingValid()
      reads `nextOutgoingStreamId, `handedOut
    {
      && nextOutgoingStreamId >= FirstOutgoing(role) && nextOutgoingStreamId % 2 == FirstOutgoing(role) % 2
      && handedOut == PeerIds(FirstOutgoing(role), nextOutgoingStreamId)
    }

    ghost predicate Valid()
      reads this
    {
      IncomingValid() && OutgoingValid()
    }

    constructor (role: Role, maxOpenOutgoingStreams: nat, maxOpenIncomingStreams: nat)
      ensures Valid() && accepted == {} && handedOut == {} && connected && this.role == role
      ensures this.maxOpenOutgoingStreams == maxOpenOutgoingStreams && this.maxOpenIncomingStreams == maxOpenIncomingStreams
    {
      this.role := role;
      this.maxOpenOutgoingStreams, this.maxOpenIncomingStreams := maxOpenOutgoingStreams, maxOpenIncomingStreams;
      nextOutgoingStreamId, largestPeerCreatedStreamId := FirstOutgoing(role), InitialLargest(role);
      availableStreams, connected, accepted, handedOut := {}, true, {}, {};
    }

    function MaxAvailableStreams(): nat
      reads this
    {
      maxOpenIncomingStreams * MAX_AVAILABLE_STREAMS_MULTIPLIER
    }

    /** How many streams would become available if the peer used id next. */
    ghost function Skipped(id: nat): set<nat>
      reads this
    {
      PeerIds(if largestPeerCreatedStreamId == INVALID_STREAM_ID then FirstIncoming(role) else largestPeerCreatedStreamId + 2, id)
    }

    /** The number that the limit is checked against is the number of streams the loop makes available. */
    method MaybeIncreaseLargestPeerStreamId(streamId: nat) returns (ok: bool)
      requires Valid() && PeerId(streamId)
      modifies `availableStreams, `largestPeerCreatedStreamId, `connected, `accepted
      ensures Valid()
      ensures ok <==> streamId <= old(largestPeerCreatedStreamId) || |old(availableStreams)| + |old(Skipped(streamId))| <= maxOpenIncomingStreams * 10
      ensures ok ==> accepted == old(accepted) + {streamId} && connected == old(connected)
      ensures ok && streamId <= old(largestPeerCreatedStreamId) ==>
        largestPeerCreatedStreamId == old(largestPeerCreatedStreamId) && availableStreams == old(availableStreams) - {streamId}
      ensures ok && streamId > old(largestPeerCreatedStreamId) ==>
        && largestPeerCreatedStreamId == streamId && availableStreams == old(availableStreams) + old(Skipped(streamId))
        && |availableStreams| <= maxOpenIncomingStreams * 10
      ensures !ok ==>
        && !connected && accepted == old(accepted) && availableStreams == old(availableStreams)
        && largestPeerCreatedStreamId == old(largestPeerCreatedStreamId)
    {
      hide PeerIds, FirstIncoming, InitialLargest, LegacyQuicStreamIdManager.PeerId, LegacyQuicStreamIdManager.OutgoingValid;
      FewerBelow(availableStreams, accepted, FirstIncoming(role), largestPeerCreatedStreamId, streamId);
      AboveAll(streamId);
      hide LegacyQuicStreamIdManager.Skipped;
      if streamId > largestPeerCreatedStreamId {
        assert availableStreams - {streamId} == availableStreams;
      }
      availableStreams := availableStreams - {streamId};
      if largestPeerCreatedStreamId != INVALID_STREAM_ID && streamId <= largestPeerCreatedStreamId {
        accepted := accepted + {streamId};
        return true;
      }
      ok := IncreaseLargestPeerStreamId(streamId);
    }

    method IncreaseLargestPeerStreamId(streamId: nat) returns (ok: bool)
      requires Valid() && PeerId(streamId) && streamId > largestPeerCreatedStreamId
      modifies `availableStreams, `largestPeerCreatedStreamId, `connected, `accepted
      ensures Valid()
      ensures ok <==> |old(availableStreams)| + |old(Skipped(streamId))| <= MaxAvailableStreams()
      ensures ok ==>
        && accepted == old(accepted) + {streamId} && connected == old(connected) && largestPeerCreatedStreamId == streamId
        && availableStreams == old(availableStreams) + old(Skipped(streamId)) && |availableStreams| <= MaxAvailableStreams()
      ensures !ok ==>
        && !connected && accepted == old(accepted) && availableStreams == old(availableStreams)
        && largestPeerCreatedStreamId == old(largestPeerCreatedStreamId)
    {
      hide PeerIds, FirstIncoming, InitialLargest, LegacyQuicStreamIdManager.PeerId, LegacyQuicStreamIdManager.OutgoingValid;
      var additionalAvailableStreams := AdditionalAvailableStreams(streamId);
      var newNumAvailableStreams := |availableStreams| + additionalAvailableStreams;
      if newNumAvailableStreams > MaxAvailableStreams() {
        connected := false;
        return false;
      }
      var firstAvailableStream := largestPeerCreatedStreamId + 2;
      if largestPeerCreatedStreamId == INVALID_STREAM_ID {
        firstAvailableStream := FirstIncoming(role);
      }
      AllBelow(availableStreams, largestPeerCreatedStreamId, accepted, streamId);
      InsertAvailable(firstAvailableStream, streamId);
      largestPeerCreatedStreamId := streamId;
      accepted := accepted + {streamId};
      return true;
    }

    method InsertAvailable(firstAvailableStream: nat, streamId: nat)
      requires firstAvailableStream <= streamId && firstAvailableStream % 2 == streamId % 2
      modifies `availableStreams
      ensures availableStreams == old(availableStreams) + PeerIds(firstAvailableStream, streamId)
    {
      var id := firstAvailableStream;
      while id < streamId
        invariant firstAvailableStream <= id <= streamId && id % 2 == streamId % 2
        invariant availableStreams == old(availableStreams) + PeerIds(firstAvailableStream, id)
        decreases streamId - id
      {
        assert PeerIds(firstAvailableStream, id + 2) == PeerIds(firstAvailableStream, id) + {id};
        availableStreams := availableStreams + {id};
        id := id + 2;
      }
    }

    /** How many more streams would be available. */
    method AdditionalAvailableStreams(streamId: nat) returns (n: nat)
      requires Valid() && PeerId(streamId) && streamId > largestPeerCreatedStreamId
      ensures n == |Skipped(streamId)| && |availableStreams + Skipped(streamId)| == |availableStreams| + n
      ensures var low := if largestPeerCreatedStreamId == INVALID_STREAM_ID then FirstIncoming(role) else largestPeerCreatedStreamId + 2;
        low <= streamId && low % 2 == streamId % 2
    {
      GrowthPredicted(streamId);
      if largestPeerCreatedStreamId == INVALID_STREAM_ID {
        return (streamId + 1) / 2 - 1;
      }
      return (streamId - largestPeerCreatedStreamId) / 2 - 1;
    }

    lemma AllBelow(before: set<nat>, largest: nat, used: set<nat>, id: nat)
      requires largest == InitialLargest(role) || (PeerId(largest) && largest in used)
      requires before == PeerIds(FirstIncoming(role), largest) - used && forall x :: x in used ==> PeerId(x) && x <= largest
      requires PeerId(id) && id > largest
      ensures PeerIds(FirstIncoming(role), id) - (used + {id})
        == before + PeerIds(if largest == INVALID_STREAM_ID then FirstIncoming(role) else largest + 2, id)
    {
    }

    /** The number computed before the loop is the number of ids that the loop goes through. */
    lemma GrowthPredicted(id: nat)
      requires Valid() && PeerId(id) && id > largestPeerCreatedStreamId
      ensures var low := if largestPeerCreatedStreamId == INVALID_STREAM_ID then FirstIncoming(role) else largestPeerCreatedStreamId + 2;
        && low <= id && low % 2 == id % 2
        && |PeerIds(low, id)| == (if largestPeerCreatedStreamId == INVALID_STREAM_ID then (id + 1) / 2 - 1 else (id - largestPeerCreatedStreamId) / 2 - 1)
        && |availableStreams + PeerIds(low, id)| == |availableStreams| + |PeerIds(low, id)|
    {
      var low := if largestPeerCreatedStreamId == INVALID_STREAM_ID then FirstIncoming(role) else largestPeerCreatedStreamId + 2;
      PeerIdsCount(low, id);
      assert availableStreams !! PeerIds(low, id);
    }

    lemma AboveAll(id: nat)
      requires Valid() && PeerId(id)
      ensures id > largestPeerCreatedStreamId ==> id !in availableStreams && id !in accepted
      ensures largestPeerCreatedStreamId == INVALID_STREAM_ID ==> id > largestPeerCreatedStreamId
    {
    }

    lemma FewerBelow(available: set<nat>, used: set<nat>, low: nat, high: nat, id: nat)
      requires available == PeerIds(low, high) - used
      ensures available - {id} == PeerIds(low, high) - (used + {id})
    {
    }

    method GetNextOutgoingStreamId() returns (id: nat)
      requires Valid()
      modifies `nextOutgoingStreamId, `handedOut
      ensures Valid() && id !in old(handedOut) && handedOut == old(handedOut) + {id}
    {
      id := nextOutgoingStreamId;
      nextOutgoingStreamId := nextOutgoingStreamId + 2;
      handedOut := handedOut + {id};
      assert PeerIds(FirstOutgoing(role), nextOutgoingStreamId) == PeerIds(FirstOutgoing(role), id) + {id};
    }

    /** Ids handed out to a client are odd and to a server even, one after the other, and none is the id of
        the handshake's own stream, nor stands for no stream. */
    lemma HandedOutIs(id: nat)
      requires Valid() && id in handedOut
      ensures id != 0 && (match role
        case Client(cryptoFrames) => id % 2 == 1 && (!cryptoFrames ==> id != 1)
        case Server(_) => id % 2 == 0)
      ensures forall x: nat :: x < id && x % 2 == id % 2 && x != 0 && (x == 1 ==> role == Client(true)) ==> x in handedOut
    {
    }

    /** Ids accepted from the peer have the other parity, and none is that of the handshake's own stream. */
    lemma AcceptedIs(id: nat)
      requires Valid() && id in accepted
      ensures id != 0 && (match role
        case Client(_) => id % 2 == 0
        case Server(cryptoFrames) => id % 2 == 1 && (!cryptoFrames ==> id != 1))
    {
    }

    /** The available streams are the ids of the peer below the largest that it has not used. */
    lemma AvailableIs(id: nat)
      requires Valid()
      ensures id in availableStreams <==>
        && id !in accepted && 0 < id < largestPeerCreatedStreamId
        && match role
           case Client(_) => id % 2 == 0
           case Server(cryptoFrames) => id % 2 == 1 && (id == 1 ==> cryptoFrames)
    {
    }

    predicate IsIncomingStream(id: nat)
      reads this
    {
      id % 2 != nextOutgoingStreamId % 2
    }

    predicate IsAvailableStream(id: nat)
      reads this
    {
      if !IsIncomingStream(id) then id >= nextOutgoingStreamId else
        largestPeerCreatedStreamId == INVALID_STREAM_ID || id > largestPeerCreatedStreamId || id in availableStreams
    }

    /** An id is available exactly when it has not been accepted from the peer or handed out. */
    lemma AvailableWhenNeverUsed(id: nat)
      requires Valid() && id >= (if IsIncomingStream(id) then FirstIncoming(role) else FirstOutgoing(role))
      ensures IsAvailableStream(id) <==> id !in (if IsIncomingStream(id) then accepted else handedOut)
    {
    }

    /** One more stream stays within the limit. */
    predicate CanOpenNextOutgoingStream(current: nat): (b: bool)
      reads this
      ensures b <==> current + 1 <= maxOpenOutgoingStreams
    {
      current < maxOpenOutgoingStreams
    }

    predicate CanOpenIncomingStream(current: nat): (b: bool)
      reads this
      ensures b <==> current + 1 <= maxOpenIncomingStreams
    {
      current < maxOpenIncomingStreams
    }
  }
}
