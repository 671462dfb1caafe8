# Channel subscription engine of laravel-websockets, in Dafny

This project models the `Channel` class of the Pusher-compatible WebSocket
server `laravel-websockets`. A channel is one named topic. It keeps an
ordered array of subscribed connections, keyed by socket id. It raises the
lifecycle events `ChannelOccupied`, `ChannelVacated` and
`SubscribedToChannel` through Laravel's `event()` helper. It fans JSON
payloads out to its members. It can check a subscription's HMAC auth token
(`verifySignature`, used by private and presence channels).

Layout:

- `options.dfy`: the `Option` type.
- `ordered_map.dfy` (module `OrderedMaps`): a PHP array used as a
  dictionary. It is a map plus the keys in insertion order, so `foreach`
  order is modelled. Assigning an existing key keeps its slot, and `unset`
  keeps the other keys in order.
- `strings.dfy` (module `Strings`): Laravel's `str_after` for a
  one-character search.
- `protocol.dfy` (module `Protocol`): connections, JSON values, events,
  outgoing frames, and the signing string with the signature acceptance
  test.
- `channel_spec.dfy` (module `ChannelSpec`): each channel operation as a
  function on what can be observed of a channel. That is its subscription
  array, the events it has raised and the frames it has sent. The
  properties are proved here as lemmas.
- `channel.dfy` (module `Channels`): the class `Channel`, whose methods
  update `subscriptions` in place and whose broadcasts loop over the
  members. Each method is proved to change the observable state exactly as
  its `ChannelSpec` function says. `event()` and `$connection->send()`
  append to the logs of an `Effects` object. `json_encode` and `hash_hmac`
  are function-valued fields of the channel that are left uninterpreted.

Three behaviours of the code are easy to miss:

- `subscribe` (Channel.php:49-57) does not call `verifySignature`.
  Only the private and presence subclasses do, and those are not part of
  this model. So `Channels.Channel.Subscribe` always succeeds.
- `unsubscribe` (Channel.php:59-66) raises `ChannelVacated` whenever the
  array is empty afterwards, even if the connection was never subscribed.
  On an empty channel, unsubscribing a non-member still raises an event,
  and ChannelVacated can be raised several times in a row
  (`ChannelSpec.UnsubscribeNonMember`, `ChannelSpec.RepeatedVacate`).
- The channel accepts any name (Channel.php:21-24) and puts it into the
  signing string unchanged (Channel.php:35). A signature cannot be
  replayed for another subscription only when socket ids and channel
  names are colon-free (`Protocol.SigningStringUnambiguous`). Otherwise a
  channel `name:data` without channel_data signs the same string as the
  channel `name` with channel_data `data` (`Protocol.SigningStringAmbiguous`).

## Model

| member | source | states |
|---|---|---|
| OrderedMaps.Put | src/WebSockets/Pusher/Channels/Channel.php:72 | `$a[$k] = $v` stores v under k and leaves every other key as it was; the count grows by one exactly when k is new; old keys keep their order and a new key goes last |
| OrderedMaps.Remove | src/WebSockets/Pusher/Channels/Channel.php:61 | `unset($a[$k])` removes k, leaves every other key as it was, lowers the count by one exactly when k was present, and leaves the array identical when k is absent; the remaining keys are the old key sequence with k dropped |
| OrderedMaps.WithoutAppend | src/WebSockets/Pusher/Channels/Channel.php:61 | dropping a key from a concatenation of key sequences drops it from each part, so the surviving keys keep their relative order |
| OrderedMaps.RemoveKeepsOrder | src/WebSockets/Pusher/Channels/Channel.php:61 | unsetting the key in `before + [k] + after` leaves exactly `before + after`, in that order |
| OrderedMaps.PutThenRemove | src/WebSockets/Pusher/Channels/Channel.php:61-72 | adding a fresh key and unsetting it restores the array exactly, key order included |
| OrderedMaps.PutTwice | src/WebSockets/Pusher/Channels/Channel.php:72 | storing the same connection under the same key twice is the same as storing it once |
| OrderedMaps.SizeIsKeyCount | src/WebSockets/Pusher/Channels/Channel.php:28 | `count()` of a well-formed array equals the number of keys `foreach` visits |
| Strings.FirstIndex | src/WebSockets/Pusher/Channels/Channel.php:41 | the position `str_after` cuts at: absent exactly when the character does not occur, otherwise an occurrence with none before it |
| Strings.StrAfter | src/WebSockets/Pusher/Channels/Channel.php:41 | `str_after($auth, ':')` is the whole token when it has no colon, otherwise exactly what follows the first colon |
| Strings.SplitAtFirst | src/WebSockets/Pusher/Channels/Channel.php:35-41 | splitting at the first colon is injective when the part before it has no colon |
| Strings.StrAfterPrefixed | src/WebSockets/Pusher/Channels/Channel.php:41 | for a token `key:rest` whose key has no colon, `str_after` yields `rest` |
| Protocol.SigningString | src/WebSockets/Pusher/Channels/Channel.php:35-39 | the signed string starts with `socketId:channelId` and is longer than that exactly when channel_data is set |
| Protocol.SigningStringUnambiguous | src/WebSockets/Pusher/Channels/Channel.php:35-39 | with colon-free socket ids and channel names, equal signing strings mean the same socket id, channel and channel_data, so a signature cannot be replayed for another subscription |
| Protocol.SigningStringAmbiguous | src/WebSockets/Pusher/Channels/Channel.php:21-39 | without that premise the signing string is ambiguous: channel `name:data` with no channel_data and channel `name` with channel_data `data` sign the same string |
| Protocol.TokenAcceptedIff | src/WebSockets/Pusher/Channels/Channel.php:41-43 | a token `key:signature` is accepted if and only if the signature equals the HMAC of the signing string under the app secret |
| Protocol.BareTokenComparedWhole | src/WebSockets/Pusher/Channels/Channel.php:41-43 | a token without a colon is accepted if and only if the whole token equals the HMAC |
| ChannelSpec.MembersExactly | src/WebSockets/Pusher/Channels/Channel.php:83 | the connections `foreach` visits are distinct, are exactly the stored connections, and there are `count()` of them |
| ChannelSpec.SaveConnection | src/WebSockets/Pusher/Channels/Channel.php:68-79 | the connection is stored under its socket id and nothing else changes in the array; ChannelOccupied is raised exactly when the array was empty; SubscribedToChannel is raised last; nothing is sent |
| ChannelSpec.Subscribe | src/WebSockets/Pusher/Channels/Channel.php:49-57 | the array and events are those of saveConnection, and exactly one acknowledgement frame is sent, to the subscriber |
| ChannelSpec.Unsubscribe | src/WebSockets/Pusher/Channels/Channel.php:59-66 | the socket id is gone and every other entry is unchanged; a non-member leaves the array identical; ChannelVacated is appended if and only if the array is now empty; nothing is sent |
| ChannelSpec.ReceivedAppend | src/WebSockets/Pusher/Channels/Channel.php:81-93 | frames received by a connection add up over consecutive sends |
| ChannelSpec.FanoutExceptStep | src/WebSockets/Pusher/Channels/Channel.php:90-92 | visiting the next member adds its frame unless its socket id is the excluded one |
| ChannelSpec.FanoutExceptNone | src/WebSockets/Pusher/Channels/Channel.php:81-93 | with no socket id excluded, the rejecting fan-out equals the plain one |
| ChannelSpec.FanoutExceptMessage | src/WebSockets/Pusher/Channels/Channel.php:92 | every frame of the fan-out carries the one encoded payload |
| ChannelSpec.ReceivedFanoutExceptLast | src/WebSockets/Pusher/Channels/Channel.php:90-92 | the last member visited adds one frame for itself, unless its socket id is the excluded one, and none for anyone else |
| ChannelSpec.FanoutExceptOnce | src/WebSockets/Pusher/Channels/Channel.php:90-92 | over distinct members, each member whose socket id is not excluded receives exactly one frame and no one else receives any |
| ChannelSpec.BroadcastToEveryoneExcept | src/WebSockets/Pusher/Channels/Channel.php:88-93 | array and events unchanged; earlier frames kept; every new frame carries `json_encode($payload)`; each subscribed connection except the excluded socket id gets exactly one more frame and every other connection none |
| ChannelSpec.Broadcast | src/WebSockets/Pusher/Channels/Channel.php:81-86 | the same as broadcastToEveryoneExcept with nobody excluded: every subscribed connection gets exactly one more frame |
| ChannelSpec.SubscribeTwice | src/WebSockets/Pusher/Channels/Channel.php:49-79 | re-subscribing a connection leaves one entry and raises ChannelOccupied at most once, with SubscribedToChannel twice |
| ChannelSpec.SubscribeThenUnsubscribe | src/WebSockets/Pusher/Channels/Channel.php:49-79 | subscribing a new socket id and unsubscribing it restores the array exactly; the events raised in between are listed |
| ChannelSpec.UnsubscribeNonMember | src/WebSockets/Pusher/Channels/Channel.php:59-66 | unsubscribing a non-member leaves the array as it is, but raises ChannelVacated when the channel is empty |
| ChannelSpec.RepeatedVacate | src/WebSockets/Pusher/Channels/Channel.php:59-66 | on an empty channel two unsubscribes raise ChannelVacated twice in a row |
| ChannelSpec.RunTracksOccupancy | src/WebSockets/Pusher/Channels/Channel.php:59-79 | from a new channel, over any sequence of subscribe, unsubscribe and broadcast, ChannelOccupied is never raised twice without ChannelVacated between, the last occupancy event is ChannelOccupied if and only if the channel has subscribers, and every event names the channel |
| Channels.Effects.Dispatch | src/WebSockets/Pusher/Channels/Channel.php:64 | `event()` appends the event to the dispatcher's log |
| Channels.Effects.Send | src/WebSockets/Pusher/Channels/Channel.php:53 | `$connection->send()` appends one frame for that connection |
| Channels.Channel.constructor | src/WebSockets/Pusher/Channels/Channel.php:21-24 | a new channel has the given id and an empty subscription array |
| Channels.Channel.HasConnections | src/WebSockets/Pusher/Channels/Channel.php:26-29 | true if and only if some connection is subscribed, and if and only if `foreach` would visit one |
| Channels.Channel.VerifySignature | src/WebSockets/Pusher/Channels/Channel.php:31-44 | fails, always with InvalidSignature, if and only if what follows the first colon of `auth` differs from the HMAC of `socketId:channelId[:channel_data]` under the app secret |
| Channels.Channel.Subscribe | src/WebSockets/Pusher/Channels/Channel.php:49-57 | changes the array, events and outbox exactly as `ChannelSpec.Subscribe` |
| Channels.Channel.Unsubscribe | src/WebSockets/Pusher/Channels/Channel.php:59-66 | changes the array, events and outbox exactly as `ChannelSpec.Unsubscribe` |
| Channels.Channel.SaveConnection | src/WebSockets/Pusher/Channels/Channel.php:68-79 | changes the array, events and outbox exactly as `ChannelSpec.SaveConnection` |
| Channels.Channel.Broadcast | src/WebSockets/Pusher/Channels/Channel.php:81-86 | the loop sends exactly the frames `ChannelSpec.Broadcast` adds and changes nothing else |
| Channels.Channel.BroadcastToEveryoneExcept | src/WebSockets/Pusher/Channels/Channel.php:88-93 | the loop sends exactly the frames `ChannelSpec.BroadcastToEveryoneExcept` adds and changes nothing else |
| Channels.Channel.BroadcastToOthers | src/WebSockets/Pusher/Channels/Channel.php:95-98 | is broadcastToEveryoneExcept with the sender's socket id excluded |
| Channels.Channel.ToArray | src/WebSockets/Pusher/Channels/Channel.php:100-105 | `occupied` agrees with hasConnections and holds if and only if `subscription_count` is positive; the count is the number of subscribed connections |

## Left out

- The channel manager, the private and presence channel subclasses, the service provider and the transport layer are not part of this model.
- `hash_hmac` and `json_encode` are uninterpreted functions. HMAC-SHA256, hex encoding and JSON text are not modelled, and neither is `json_encode` failing.
- ChannelSpec.Subscribe: events and frames are kept in two separate logs. The model does not capture their relative order: saveConnection's events are raised before the acknowledgement is sent (Channel.php:51 then 53). The same holds for Channels.Channel.Subscribe.
- Channels.Channel.VerifySignature: the `!==` comparison is modelled as string equality, and its timing is not modelled, so constant-time comparison is out of scope.
- Channels.Channel.VerifySignature: a payload without an `auth` property is not modelled, because `auth` is always a string here. In PHP that would be an undefined property read.
- Strings.StrAfter: modelled for a one-character search only, which is the only way the channel uses `str_after`.
- Channels.Effects.Send: a send that throws on a closed socket is not modelled. Every send succeeds and appends one frame.
- Concurrency is not modelled. Each method runs to completion before the next starts.
- Connections are compared as values (socket id plus client), not by object identity.
- Integers are unbounded. The subscription count has no machine-width limit.
