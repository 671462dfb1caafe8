/**
 * The channel itself: an object whose subscription array is changed in
 * place by subscribe and unsubscribe, and whose broadcasts loop over that
 * array. What it raises through `event()` and writes with
 * `$connection->send()` lands in an Effects object, so that each method's
 * contract can say exactly what it emitted.
 */
module Channels {

  import opened Options
  import opened OrderedMaps
  import opened Protocol
  import opened ChannelSpec

  /** The outside world as the channel touches it: the event dispatcher and the sockets. */
  class Effects {
    var events: seq<Event>
    var outbox: seq<Sent>

    constructor ()
      ensures events == [] && outbox == []
    {
      events := [];
      outbox := [];
    }

    /** Laravel's `event($e)`. */
    method Dispatch(e: Event)
      modifies this`events
      ensures events == old(events) + [e]
    {
      events := events + [e];
    }

    /** `$to->send($message)`. */
    method Send(to: Connection, message: string)
      modifies this`outbox
      ensures outbox == old(outbox) + [Sent(to, message)]
    {
      outbox := outbox + [Sent(to, message)];
    }
  }

  class Channel {
    const channelId: string
    var subscriptions: Subscriptions
    const effects: Effects
    const encode: Encoder
    const hmac: Hmac

    ghost predicate Valid()
      reads this
    {
      WellFormed(subscriptions)
    }

    /** What the channel has done so far, as seen from outside. */
    function Observe(): Observed
      reads this, effects
    {
      Observed(subscriptions, effects.events, effects.outbox)
    }

    constructor (channelId: string, effects: Effects, encode: Encoder, hmac: Hmac)
      ensures Valid()
      ensures this.channelId == channelId && this.effects == effects
      ensures this.encode == encode && this.hmac == hmac
      ensures subscriptions == Empty()
    {
      this.channelId := channelId;
      this.effects := effects;
      this.encode := encode;
      this.hmac := hmac;
      subscriptions := Empty();
    }

    function HasConnections(): (r: bool)
      reads this
      requires Valid()
      ensures r <==> Members(subscriptions) != []
      ensures r <==> exists k :: Lookup(subscriptions, k).Some?
    {
      MembersExactly(subscriptions);
      assert Size(subscriptions) > 0 ==> subscriptions.keys[0] in subscriptions.entries;
      Size(subscriptions) > 0
    }

    /** The signature check that private and presence channels run before subscribing. */
    method VerifySignature(connection: Connection, payload: SubscribePayload) returns (outcome: Outcome)
      ensures outcome.Fail? <==>
        !SignatureAccepted(payload.auth, SigningString(connection.socketId, channelId, payload.channelData),
                           connection.client.appSecret, hmac)
      ensures outcome.Fail? ==> outcome.error == InvalidSignature
    {
      var auth := payload.auth;
      var signature := connection.socketId + ":" + channelId;
      if payload.channelData.Some? {
        signature := signature + ":" + payload.channelData.value;
      }
      if Strings.StrAfter(auth, ':') != hmac(signature, connection.client.appSecret) {
        return Fail(InvalidSignature);
      }
      return Pass;
    }

    method Subscribe(connection: Connection, payload: SubscribePayload)
      requires Valid()
      modifies this, effects
      ensures Valid()
      ensures Observe() == ChannelSpec.Subscribe(old(Observe()), channelId, encode, connection)
    {
      SaveConnection(connection);
      effects.Send(connection, encode(SubscriptionAck(channelId)));
    }

    method Unsubscribe(connection: Connection)
      requires Valid()
      modifies this, effects
      ensures Valid()
      ensures Observe() == ChannelSpec.Unsubscribe(old(Observe()), channelId, connection)
    {
      subscriptions := Remove(subscriptions, connection.socketId);
      if !HasConnections() {
        effects.Dispatch(ChannelVacated(connection, channelId));
      }
    }

    method SaveConnection(connection: Connection)
      requires Valid()
      modifies this, effects
      ensures Valid()
      ensures Observe() == ChannelSpec.SaveConnection(old(Observe()), channelId, connection)
    {
      var hadConnectionsPreviously := HasConnections();
      subscriptions := Put(subscriptions, connection.socketId, connection);
      if !hadConnectionsPreviously {
        effects.Dispatch(ChannelOccupied(connection, channelId));
      }
      effects.Dispatch(SubscribedToChannel(connection, channelId));
    }

    method Broadcast(payload: Json)
      requires Valid()
      modifies effects`outbox
      ensures Observe() == ChannelSpec.Broadcast(old(Observe()), encode, payload)
    {
      var members := Members(subscriptions);
      var i := 0;
      while i < |members|
        invariant 0 <= i <= |members|
        invariant effects.outbox == old(effects.outbox) + Fanout(members[..i], encode(payload))
      {
        var connection := members[i];
        effects.Send(connection, encode(payload));
        assert members[..i + 1][..i] == members[..i];
        i := i + 1;
      }
      assert members[..i] == members;
    }

    method BroadcastToEveryoneExcept(payload: Json, socketId: Option<SocketId>)
      requires Valid()
      modifies effects`outbox
      ensures Observe() == ChannelSpec.BroadcastToEveryoneExcept(old(Observe()), encode, payload, socketId)
    {
      var members := Members(subscriptions);
      var message := encode(payload);
      var i := 0;
      while i < |members|
        invariant 0 <= i <= |members|
        invariant effects.outbox == old(effects.outbox) + FanoutExcept(members[..i], socketId, message)
      {
        var existingConnection := members[i];
        FanoutExceptStep(members, i, socketId, message);
        if socketId != Some(existingConnection.socketId) {
          effects.Send(existingConnection, message);
        }
        i := i + 1;
      }
      assert members[..i] == members;
    }

    method BroadcastToOthers(connection: Connection, payload: Json)
      requires Valid()
      modifies effects`outbox
      ensures Observe() == ChannelSpec.BroadcastToEveryoneExcept(old(Observe()), encode, payload, Some(connection.socketId))
    {
      BroadcastToEveryoneExcept(payload, Some(connection.socketId));
    }

    function ToArray(): (r: Summary)
      reads this
      requires Valid()
      ensures r.occupied == HasConnections()
      ensures r.occupied <==> r.subscriptionCount > 0
      ensures r.subscriptionCount == |Members(subscriptions)|
    {
      MembersExactly(subscriptions);
      Summary(Size(subscriptions) > 0, Size(subscriptions))
    }
  }

  /** `toArray()`: the dashboard's view of a channel. */
  datatype Summary = Summary(occupied: bool, subscriptionCount: nat)
}
