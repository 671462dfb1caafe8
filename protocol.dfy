/**
 * The values a channel exchanges with the rest of the server: connections,
 * JSON payloads, the three lifecycle events, outgoing frames, and the
 * Pusher channel-authentication check (an HMAC-SHA256 over
 * `socketId:channelName[:channel_data]`, keyed by the app secret).
 */
module Protocol {

  import opened Options
  import opened Strings

  type SocketId = string

  /** The application a connection was accepted under (`$connection->client`). */
  datatype Client = Client(appKey: string, appSecret: string)

  /** A socket connection as a channel sees it: its socket id and its client. */
  datatype Connection = Connection(socketId: SocketId, client: Client)

  /** A PHP value handed to `json_encode`. */
  datatype Json =
    | JNull
    | JBool(b: bool)
    | JInt(i: int)
    | JString(s: string)
    | JList(items: seq<Json>)
    | JObject(fields: seq<(string, Json)>)

  /** `json_encode`, left uninterpreted. */
  type Encoder = Json -> string

  /** `hash_hmac('sha256', data, key)` as a hex digest, left uninterpreted. */
  type Hmac = (string, string) -> string

  /** The fields of a `pusher:subscribe` request's data that the channel reads. */
  datatype SubscribePayload = SubscribePayload(auth: string, channelData: Option<string>)

  /** The lifecycle events raised through Laravel's `event()` helper. */
  datatype Event =
    | ChannelOccupied(connection: Connection, channelId: string)
    | ChannelVacated(connection: Connection, channelId: string)
    | SubscribedToChannel(connection: Connection, channelId: string)

  /** One `$connection->send($message)`. */
  datatype Sent = Sent(to: Connection, message: string)

  datatype SignatureError = InvalidSignature

  /** Returning normally, or throwing. */
  datatype Outcome = Pass | Fail(error: SignatureError)

  const SubscriptionSucceeded: string := "pusher_internal:subscription_succeeded"

  /** The acknowledgement `{event: pusher_internal:subscription_succeeded, channel: id}`. */
  function SubscriptionAck(channelId: string): Json {
    JObject([("event", JString(SubscriptionSucceeded)), ("channel", JString(channelId))])
  }

  /** The string a channel signature is computed over. */
  function SigningString(socketId: SocketId, channelId: string, channelData: Option<string>): (r: string)
    ensures |r| >= |socketId| + 1 + |channelId|
    ensures r[..|socketId| + 1 + |channelId|] == socketId + ":" + channelId
    ensures channelData.None? <==> |r| == |socketId| + 1 + |channelId|
  {
    var signature := socketId + ":" + channelId;
    if channelData.Some? then signature + ":" + channelData.value else signature
  }

  /**
   * For colon-free socket ids and channel names, different subscriptions
   * never share a signing string, so a signature made for one cannot be
   * replayed for another. The channel itself does not reject a name with a
   * colon; for such names see SigningStringAmbiguous.
   */
  lemma SigningStringUnambiguous(
    socketId: SocketId, channelId: string, channelData: Option<string>,
    socketId': SocketId, channelId': string, channelData': Option<string>)
    requires ':' !in socketId && ':' !in channelId && ':' !in socketId' && ':' !in channelId'
    requires SigningString(socketId, channelId, channelData) == SigningString(socketId', channelId', channelData')
    ensures socketId == socketId' && channelId == channelId' && channelData == channelData'
  {
    var tail := if channelData.Some? then ":" + channelData.value else "";
    var tail' := if channelData'.Some? then ":" + channelData'.value else "";
    assert socketId + [':'] + (channelId + tail) == SigningString(socketId, channelId, channelData);
    assert socketId' + [':'] + (channelId' + tail') == SigningString(socketId', channelId', channelData');
    SplitAtFirst(socketId, channelId + tail, ':', socketId', channelId' + tail');
    // a present channel_data puts a colon right after the channel name
    assert channelData.Some? ==> (channelId + tail)[|channelId|] == ':';
    assert channelData'.Some? ==> (channelId' + tail')[|channelId'|] == ':';
    match (channelData, channelData')
    case (None, None) =>
      assert channelId + tail == channelId && channelId' + tail' == channelId';
    case (Some(d), Some(d')) =>
      assert channelId + [':'] + d == channelId + tail;
      assert channelId' + [':'] + d' == channelId' + tail';
      SplitAtFirst(channelId, d, ':', channelId', d');
    case (Some(d), None) =>
      assert false;
    case (None, Some(d')) =>
      assert false;
  }

  /**
   * Without the colon-free premise the signing string is ambiguous: a
   * channel named `name:data` with no channel_data signs the same string as
   * the channel `name` with channel_data `data`.
   */
  lemma SigningStringAmbiguous(socketId: SocketId, name: string, data: string)
    ensures SigningString(socketId, name + ":" + data, None) == SigningString(socketId, name, Some(data))
    ensures name + ":" + data != name
  {
    assert |name + ":" + data| > |name|;
  }

  /** `str_after($auth, ':') === hash_hmac('sha256', $signature, $secret)`. */
  predicate SignatureAccepted(auth: string, signingString: string, appSecret: string, hmac: Hmac) {
    StrAfter(auth, ':') == hmac(signingString, appSecret)
  }

  /**
   * An auth token `key:signature` is accepted exactly when its signature
   * part is the HMAC of the signing string: any other suffix is rejected.
   */
  lemma TokenAcceptedIff(key: string, signature: string, signingString: string, appSecret: string, hmac: Hmac)
    requires ':' !in key
    ensures SignatureAccepted(key + ":" + signature, signingString, appSecret, hmac)
        <==> signature == hmac(signingString, appSecret)
  {
    StrAfterPrefixed(key, signature, ':');
  }

  /** A token without any colon is compared whole, since `str_after` then returns it unchanged. */
  lemma BareTokenComparedWhole(auth: string, signingString: string, appSecret: string, hmac: Hmac)
    requires ':' !in auth
    ensures SignatureAccepted(auth, signingString, appSecret, hmac) <==> auth == hmac(signingString, appSecret)
  {
  }
}
