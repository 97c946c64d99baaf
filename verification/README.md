# EAP Acceleration proxy: a verified model of the protocol engine

The proxy stands between a NAS and an auth server and takes part in both of their RADIUS
conversations. In *passthrough* mode it relays each EAP-TLS packet. In *reassemble* mode it
acknowledges the supplicant's fragments itself, sends the whole TLS message on in fragments of its own,
pulls the server's flight with ACKs of its own, and feeds it to the supplicant in fragments that fit the
access link. The claim is that this changes framing, Identifiers and the number of exchanges, and never
what the two TLS stacks say to each other or how it ends.

The project models that engine octet by octet and proves the claim, together with what each part
promises by itself.

## How it is built

| file | what it holds |
|---|---|
| `Prelude.dfy`, `Octets.dfy` | options and results; big-endian numbers, concatenation, cutting into chunks |
| `EapTls.dfy` | the EAP-TLS parser, printer and fragmenter (`proxy/eap_tls.py`) |
| `Reassembly.dfy`, `Reassembler.dfy` | the reassembly state machine as a function, its stream theorems, and the object |
| `Radius.dfy` | the attribute decode loop, the EAP-Message split, an encoder, lengths (`proxy/upstream_radius.py`) |
| `SessionState.dfy`, `Session.dfy` | what a session knows, as a value and as an object (`proxy/session.py`) |
| `Upstream.dfy` | one exchange with the auth server (`UpstreamClient.send_eap`) |
| `MediatorSpec.dfy`, `Mediator.dfy` | the mediation logic as functions, and the object proved to compute them (`proxy/mediator.py`) |
| `ServerLegLaws.dfy`, `SupplicantLegLaws.dfy`, `UpwardLaws.dfy`, `DrainLaws.dfy`, `CountingLaws.dfy`, `VerdictLaws.dfy`, `MessageLaws.dfy`, `DeliveryLaws.dfy`, `OutcomeLaws.dfy` | what the mediator keeps against any auth server whatever |
| `Endpoints.dfy`, `Authentication.dfy`, `PassthroughRun.dfy`, `ReassembleRun.dfy`, `Transparency.dfy` | both ends as strict lock-step machines, whole authentications, transparency and its price |
| `Books.dfy` | the counters of a reassembling session after every datagram of an authentication |
| `DownstreamSpec.dfy`, `KeyLaws.dfy`, `DownstreamLaws.dfy`, `DatagramLaws.dfy`, `HastyKeys.dfy`, `SessionTable.dfy`, `Downstream.dfy`, `LimitLaws.dfy` | datagrams, the session table, correlation, isolation, key binding, limits (`proxy/downstream_server.py`) |
| `ProxyRun.dfy` | transparency through the session table, among any other traffic |
| `Instances.dfy` | runs from the empty table in which the octets on their way down come out wrong |
| `Example.dfy` | one scenario worked through in both modes, which meets every condition of the whole-run theorems |

Objects are classes (`Reassembler`, `RadiusPacket`, `Session`, `UpstreamClient`, `Mediator`,
`SessionTable`, `DownstreamServer`). Each has a `View()` on values, and each method's postcondition
equates the new view, also when the call raises, with a function of the old one. The theorems are about
those functions. `None` is an `Option`; every exception is an `Err` or `Raised` that keeps what the code
had already changed.

The auth server and the transport to it are one arbitrary function from the requests sent so far to an
answer or none (a timeout). The laws of a leg hold for any such server. The whole-run theorems put a
strict server and a strict supplicant at the two ends: any TLS stacks, any cutting on either leg, L on
any fragment or none; but a wrong Identifier, a wrong State, an ACK where data is due or data where an
ACK is due meets silence, and so does an EAP packet that no RADIUS packet has room for; a run that meets
silence fails. Each theorem that promises success states the room it needs: what the ends' own
fragments, the Identity and, in reassemble mode, the two fragment sizes leave of 65535 octets beside all
other attributes.

## Main results

- `ProxyRun.IdealThroughTheProxy`: through the session table, among any interleaving of other
  authentications, either mode brings both ends exactly through the dialogue their TLS stacks would hold
  with nothing in between. `Transparency.ProxyIsTransparent` compares the modes,
  `Transparency.AuthenticationIsIdeal` gives the exact measurements.
- `Transparency.SupplicantCuttingIsFree`, `Transparency.OneExchangePerTurn`,
  `Transparency.PassthroughPaysPerPacket`, `ReassembleRun.TurnCosts`: the round trips of a run in each mode.
- `Books.MeasurementsBalance`, `CountingLaws.PacketCounts`: the books after every datagram, and after any
  packet against any server.
- `UpwardLaws.RecordGoesUp`, `DrainLaws.DrainGathers`, `DeliveryLaws.MessageIsDelivered`,
  `DownstreamLaws.DatagramDelivers`, `MessageLaws.InStepThroughout`, `SupplicantLegLaws.DownwardConservation`,
  `CountingLaws.QueueIsConserved`, `CountingLaws.QueueIsSafeExactly`: what each hop keeps of the octets, against
  any server, with the exact conditions under which a record handed down is a message of the server's and a
  queue can be thrown away.
- `ServerLegLaws.HandlerIsFaithful`, `SupplicantLegLaws.EveryAnswerIsProper`,
  `SupplicantLegLaws.RequestsStayApart`, `VerdictLaws.EveryVerdictCounts`, `OutcomeLaws.EveryCallEndsSo`: State
  chaining, Identifiers, verdicts and how every call ends, against any server.
- `Reassembly.StreamIsReassembled`, `Reassembly.MessageSurvivesTheWire`, `Reassembly.OverflowIsSticky`,
  `EapTls.ParseOfBuild`, `EapTls.BuildOfParse`, `Radius.EapRoundTrip`: the formats.
- `DownstreamLaws.TableIsAlwaysAtRest`, `DownstreamLaws.SessionsAreIsolated`,
  `DownstreamLaws.ConversationResumes`, `DownstreamLaws.AcceptKeysAreBound`: the session table over any
  series of events, and whose keys an Access-Accept carries.
- `DatagramLaws.ServedExactly`, `DatagramLaws.RelayIsExact`, `DatagramLaws.ReplyFields`,
  `DatagramLaws.RequestsSpeakForTheDatagram`, `KeyLaws.KeysMeetExactly`, `ServerLegLaws.AnswerIsRead`: one datagram
  from the wire to the wire.

## Where the code and what is said of it part

The model follows the code. Each of these is a lemma.

- What goes down need not be a message of the server's. `MessageLaws.Messages` reads the server's messages off
  the conversation: its data, cut after each fragment without M (`MessageLaws.MessagesAreHeard`). A record
  handed down is the message just ended, from its beginning to its end, if and only if the last answer ends
  one and the reassembler, when the flight began, held exactly what the server had sent of its open message
  (`DeliveryLaws.MessageIsDelivered`, `DownstreamLaws.DatagramDelivers`). It does so throughout a conversation
  if and only if no answer parts the two (`MessageLaws.InStepThroughout`, `MessageLaws.InStepSince`): data with M that nobody reads
  because it answers a chunk with more to follow or a packet that is not EAP-TLS, or that is refused for the
  length it declares; and, without M, the end of a message that overflows, or one nobody reads while its
  beginning is held. So the tail of a message goes down as the whole when its first fragment was refused
  (`Instances.TailOfRefusedMessage`) or unread (`Instances.TailOfUnreadMessage`).
- A challenge without EAP or an empty EAP-TLS packet in the middle of a flight hands down the part there is
  (`Instances.TruncatedFlightIsDelivered`), and that part goes out again in front of what the server sends next
  (`Instances.StaleOctetsGoOutInFront`). In answer to an empty EAP-TLS packet the old buffer goes out
  again, also after a complete message (`DrainLaws.EmptyPacketRepeatsBuffer`, `Instances.OldRecordGoesOutAgain`).
- A data packet that completes a record while fragments are queued can cost the queue: it does with any
  server that has something to deliver in answer, and no other packet can, whatever the server does
  (`CountingLaws.QueueIsConserved`, `CountingLaws.QueueIsSafeExactly`, `Instances.QueueIsThrownAway`).
- A packet that the supplicant repeats because an answer was lost is taken for a new one. A fragment with
  M is appended twice, so that the record goes up with its octets twice or, if that is above the limit, not at
  all (`DeliveryLaws.FragmentAgain`). The last fragment of a record goes up once more as a record of its own,
  which is the same record only if it was the only fragment (`DeliveryLaws.LastFragmentAgain`). An ACK draws
  the next fragment, under the same Identifier (`DeliveryLaws.AckAgain`).
- In reassemble mode a verdict goes unread if and only if it answers a chunk with more to follow; on every
  other route no verdict does (`VerdictLaws.EveryVerdictCounts`; `HastyKeys.HastyKeyGoesOutLate` has an
  instance).
- Keys of an Access-Accept that came between two chunks of a record stay in the session and may go out
  with a later Access-Accept that brought none (`HastyKeys.HastyKeyGoesOutLate`). Where no chunk with more
  to follow was accepted, and in passthrough always, the binding holds (`DownstreamLaws.AcceptKeysAreBound`,
  which also says for each blob exactly when).
- `proxy/downstream_server.py:22-24` promises a first key made of the NAS address *and* the calling station
  or Identifier. Where there is a calling station, the code uses nothing else, and a calling station that
  reads like another NAS's address and Identifier meets that one's key
  (`KeyLaws.KeysMeetExactly`).
- The bound of 65000 on fragment sizes keeps EAP lengths in range, but not RADIUS lengths: 64991 is the
  largest size whose packets fit even with no other attribute (`Radius.LargestFragmentSize`,
  `Radius.ConfiguredBoundIsNotEnough`). The theorems on whole runs in reassemble mode require
  `Radius.FitsRadius` of both sizes.
- An attribute whose length octet runs past the end of the packet is taken short without complaint
  (`Radius.OverrunIsTakenShort`, `Radius.EncodeOfScan`).
- A minted Identifier is that of the Request 256 before it (`SupplicantLegLaws.RequestsStayApart`).
- Passthrough, said to be transparent in both directions, drops the packet of an Access-Reject
  (`DatagramLaws.RelayIsExact`).
- After an overflow the reassembler keeps more than its limit, and no data packet of its session reaches
  the server again (`Reassembly.OverflowIsSticky`, `UpwardLaws.OverflowCutsTheServerOff`). On the server's side
  the buffer can then grow by a packet with every datagram; sizes stay within their fields for as long as
  that stays below 2^32 octets (`LimitLaws.SessionsAreWithinLimits`).

## Model

| member | source | states |
|---|---|---|
| ProxyRun.IdealThroughTheProxy | proxy/downstream_server.py:114-179 | Among any other traffic, in either mode, datagram by datagram through the session table, the supplicant hears exactly the ideal dialogue and gets its verdict; while it lasts, the session under the quoted State is one whose server has heard exactly that dialogue |
| ProxyRun.LoneAuthenticationIsIdeal | proxy/downstream_server.py:114-179 | From an empty table with no other traffic the same holds with no condition but well-behaved ends and fresh tokens |
| Example.CaseGoesThrough | proxy/mediator.py:46-159 | All conditions can be met at once: a named scenario goes through the proxy in both modes |
| Example.CaseWorkedThrough | proxy/mediator.py:179-201 | A run of that scenario takes four round trips in reassemble mode, five in passthrough |
| ProxyRun.ConversationFollows | proxy/downstream_server.py:114-179 | k datagrams through the table, with any events elsewhere in between, do exactly what k steps of the mediator alone do |
| ProxyRun.TurnaroundFollows | proxy/downstream_server.py:151-179 | One datagram through routing, reply and table leaves the supplicant and the session as one step of the mediator does |
| ProxyRun.OpeningFollows | proxy/downstream_server.py:210-229 | The Identity datagram of a new conversation files a session ready for its first turn under the State it mints |
| DownstreamLaws.KnownSessionIsServed | proxy/downstream_server.py:254-262 | A session that has a State is served in place and leaves the table exactly when it has a result |
| Transparency.ProxyIsTransparent | proxy/mediator.py:1-33 | Between the same TLS stacks a reassembling and a passthrough proxy deliver the same messages, in the same order, to each end, and the same verdict |
| Transparency.AuthenticationIsIdeal | proxy/mediator.py:46-159 | Either mode brings both strict ends exactly through the ideal dialogue after exactly so many datagrams, and the session's round trips and counters are exactly the sum over its turns |
| Transparency.DialogueGoesThrough | proxy/mediator.py:46-159 | From one turn to any later one: both ends in agreement, at the exact bill |
| Transparency.DialogueIsIdeal | proxy/mediator.py:28-28 | The dialogue held is that of the TLS stacks alone, whatever the cutting |
| Transparency.OpeningSucceeds | proxy/downstream_server.py:210-229 | The Identity exchange and the Start it brings leave session, server and supplicant ready for the first turn |
| Transparency.SupplicantCuttingIsFree | proxy/mediator.py:144-153 | Two runs in reassemble mode that differ in how the supplicant cuts its messages, or in the downstream size, take the same number of round trips |
| Transparency.OneExchangePerTurn | proxy/mediator.py:177-182 | If every message fits one packet upstream, a run takes one round trip for the Identity and one for each turn |
| Transparency.PassthroughPaysPerPacket | proxy/mediator.py:375-388 | A run in passthrough mode takes one round trip for each datagram sent |
| Transparency.RunPaysPerPacket | proxy/mediator.py:375-388 | So does any stretch of a run that gets answers, whatever the ends do |
| Books.MeasurementsBalance | proxy/session.py:31-37 | After every single datagram of an authentication in reassemble mode: each packet from the supplicant was acknowledged on the spot, handed over an act or drew a fragment; each exchange but the first was a chunk, a poll or a pull; the octets counted upward are those of the acts handed over, those counted downward are with the supplicant or queued |
| Books.RunIsBooked | proxy/session.py:31-37 | Any run that gets answers keeps those books, step by step, and keeps session and supplicant in step |
| CountingLaws.PacketCounts | proxy/mediator.py:46-159 | For any packet, against any server, with sizes and lengths within their fields: the queue stays, or loses its head to an ACK, or is replaced by the rest of a record from the server; each counter moves by exactly what was handed back and what went up |
| CountingLaws.NothingIsTooLarge | proxy/eap_tls.py:162-169 | Within those limits no packet and no server makes a number overflow its field |
| LimitLaws.RouteStays | proxy/eap_tls.py:232-236 | A packet on any route raises the bound on what a session holds by one RADIUS packet at most, against any server whose packets fit RADIUS |
| LimitLaws.SessionsAreWithinLimits | proxy/config.py:45-60 | So in any run from the empty table every session is within those limits, for as long as the largest message and one RADIUS packet for each event stay below 2^32 octets |
| CountingLaws.QueueIsConserved | proxy/mediator.py:345-373 | For any packet, against any server: octets queued and octets taken from the server are handed out or queued, except that the old queue is lost exactly when a data packet brings a record while it is not empty |
| CountingLaws.QueueIsSafeExactly | proxy/mediator.py:345-352 | No server can make a packet cost the queue if and only if the packet is an ACK, or the queue is empty, or the packet does not complete a record |
| Instances.QueueIsThrownAway | proxy/mediator.py:349-349 | An instance, in two datagrams from the empty table: an octet still queued is neither handed out nor queued after a data packet |
| VerdictLaws.EveryVerdictCounts | proxy/mediator.py:181-233 | For any packet, against any server: in reassemble mode a verdict among the answers is the last answer and concludes the session in that very call if and only if it does not answer a fragment with M; on every other route every verdict does |
| VerdictLaws.OutlivesTheUnread | proxy/mediator.py:181-201 | The verdicts a session has outlived answered fragments with M, in reassemble mode; one that ends has outlived no others before its last |
| ReassembleRun.NextTurn | proxy/mediator.py:101-159 | One turn of each side in reassemble mode: exactly so many datagrams, at exactly this bill, both ends in agreement afterwards |
| ReassembleRun.TurnCosts | proxy/mediator.py:179-201 | A run through one turn, a record of n octets answered by m fragments, takes exactly max(1, ceil(n / size)) + (m - 1) exchanges, a poll 1 + (m - 1) |
| ReassembleRun.RecordArrives | proxy/mediator.py:179-201 | The send loop brings the record whole to the strict server and returns the answer to its last chunk |
| ReassembleRun.DrainPullsFlight | proxy/mediator.py:292-343 | The drain loop returns a strict server's flight whole, at one ACK a fragment |
| ReassembleRun.FlightIsPulled | proxy/mediator.py:241-266 | A flight in answer is handed on whole, whatever its cutting |
| ReassembleRun.ClosingIsPassedOn | proxy/mediator.py:219-233 | The server's verdict reaches the supplicant with the terminal packet under the supplicant's Identifier |
| ReassembleRun.FeedingEnds | proxy/mediator.py:112-114 | ACK by ACK the queued fragments complete the record at the supplicant, at no exchange |
| ReassembleRun.FragmentIsHeld | proxy/mediator.py:144-153 | A fragment with M is acknowledged on the spot with the server leg untouched |
| PassthroughRun.NextTurn | proxy/mediator.py:375-402 | One turn of each side in passthrough mode: one exchange for each packet, both ends in agreement afterwards |
| PassthroughRun.Relay | proxy/mediator.py:383-401 | A packet reaches the server as it is and the challenge comes back as it is |
| Authentication.StrictExchange | proxy/upstream_radius.py:208-302 | A packet under the right Identifier and State reaches the strict server; its reaction comes back whole and the session again agrees with the server on where they stand |
| UpwardLaws.RecordGoesUp | proxy/mediator.py:143-204 | For any packets of one record, against any server: all but the last get a local ACK and leave the server leg untouched; what the last call sends upstream, fed to a fresh reassembler, gives exactly the record, or nothing if the server fell silent before its last chunk |
| UpwardLaws.ChunksAreSent | proxy/mediator.py:181-197 | The send loop sends the chunks in order with the right L, M and total, all of them unless the server falls silent |
| UpwardLaws.TrainIsHeld | proxy/mediator.py:144-159 | All fragments but the last are held with no word to the server; the last hands the whole record on |
| UpwardLaws.OverflowCutsTheServerOff | proxy/eap_tls.py:235-236 | After an overflow on the supplicant's side, whatever packets follow: each data packet raises and leaves the server leg as it was, and all that still goes up is ACKs |
| DrainLaws.DrainGathers | proxy/mediator.py:308-343 | Against any server the drain goes on exactly while fragments with M come back; how the first other answer ends it; a record returned is all octets since the flight began, and the whole flight if and only if that answer was a fragment without M |
| DrainLaws.DrainIsBounded | proxy/mediator.py:308-343 | If every fragment with M brings an octet, the ACKs of one drain number at most the room left in the buffer plus one |
| DrainLaws.RecordDelivered | proxy/mediator.py:235-266 | In any state, a record handed down is exactly what came back since the reply in hand, in order, behind what was left of a flight given up; in answer to an empty EAP-TLS packet it is the old buffer |
| MessageLaws.EveryRouteIsRemembered | proxy/mediator.py:181-266 | For any packet on any route, against any server and however the call ends: the downstream reassembler stays what the conversation has made it, ingesting exactly the answers to EAP-TLS packets that are not chunks with more to follow |
| MessageLaws.MessagesAreHeard | proxy/eap_tls.py:210-249 | The messages read off the conversation are those a reassembler gives that hears all of the server's data and raises at none, and what it then holds is the open one |
| MessageLaws.InStepThroughout | proxy/eap_tls.py:215-249 | From any point of a conversation at which the reassembler holds exactly what the server has sent of its open message, it does so after each answer that follows if and only if none of these is unread, refused or too much in one of the ways that part the two |
| MessageLaws.InStepSince | proxy/eap_tls.py:238-249 | A fragment without M that is read and does not overflow brings them together again, whatever went before; if nothing has parted them since, they are in step at the end |
| DeliveryLaws.MessageIsDelivered | proxy/mediator.py:110-266 | For any packet, against any server: the record delivered is the message the server has just ended, from its beginning to its end, if and only if the last answer ends one and the reassembler was in step when the flight began; the answers to the chunks before leave it as it was |
| DownstreamLaws.DatagramDelivers | proxy/downstream_server.py:151-170 | The same of a datagram to any session of any reachable table; the session was in step if no answer before had parted it |
| DeliveryLaws.PacketDelivers | proxy/mediator.py:110-266 | For any packet, in any state, against any server: the record it brings the supplicant is made so of the flight that answers the last chunk, or the poll, that went up for it |
| DeliveryLaws.FragmentAgain | proxy/eap_tls.py:232-236 | A fragment with M sent twice: the record goes up with its octets twice, which is the record if and only if it has none; above the limit the last packet raises and nothing of it goes up |
| DeliveryLaws.LastFragmentAgain | proxy/eap_tls.py:220-249 | The last fragment of a record, sent twice, goes up a second time as a record of its own octets, the same record if and only if it was the only fragment |
| DeliveryLaws.AckAgain | proxy/mediator.py:354-373 | An ACK sent twice draws two fragments under one Identifier if two are queued; if only one is, the second ACK becomes a poll |
| Instances.TruncatedFlightIsDelivered | proxy/mediator.py:336-343 | An instance, from the empty table: the first octet of an unfinished message goes to the supplicant as a message |
| Instances.StaleOctetsGoOutInFront | proxy/eap_tls.py:221-232 | An instance, in two datagrams from the empty table: the fragment the server sends next, without M, goes out behind the octet already delivered |
| Instances.TailOfRefusedMessage | proxy/eap_tls.py:221-230 | An instance, in two datagrams from the empty table: the first fragment of a message declares too much and is refused, the second goes down as a whole message |
| Instances.TailOfUnreadMessage | proxy/mediator.py:182-201 | An instance, in one datagram from the empty table: the first fragment of a message answers a chunk with more to follow, the second goes down as a whole message |
| Instances.OldRecordGoesOutAgain | proxy/mediator.py:241-266 | An instance, in two datagrams from the empty table: a message the server sent once reaches the supplicant twice |
| ServerLegLaws.HandlerIsFaithful | proxy/mediator.py:46-159 | Against any server: each request carries the State of the last answer before it and the authenticator and names of the datagram being answered; in reassemble mode each packet sent upstream echoes the last upstream Request's Identifier, or counts on from the fallback counter while there is none; in passthrough the packet goes up as it is |
| ServerLegLaws.ExchangeIsFaithful | proxy/upstream_radius.py:227-325 | One exchange keeps State, Identifier, keys and round trips true to the conversation, and the EAP packet goes out whole |
| ServerLegLaws.DrainIsFaithful | proxy/mediator.py:308-322 | So does the drain loop, every ACK echoing the fragment it acknowledges |
| ServerLegLaws.ForwardIsFaithful | proxy/mediator.py:161-204 | So does the send loop, every chunk echoing the last Request |
| SupplicantLegLaws.EveryAnswerIsProper | proxy/mediator.py:81-108 | Against any server, in reassemble mode: a minted Request has the Identifier after the Response's; a verdict is the server's of this very datagram, its packet unchanged but for the Identifier; a result is set exactly when a verdict is handed out |
| SupplicantLegLaws.RequestsStayApart | proxy/session.py:139-141 | For an echoing supplicant, whatever it sends and whatever the server does or leaves undone, the Requests are numbered one after another, so two of them share an Identifier if and only if a multiple of 256 lies between them |
| SupplicantLegLaws.HeldVerdictIsGivenAgain | proxy/mediator.py:115-127 | After a call that ended the session an ACK gets the same verdict and packet again, stamped for it, with no word to the server |
| OutcomeLaws.EveryCallEndsSo | proxy/mediator.py:110-343 | For any packet in reassemble mode, against any server: whether it asks the server, and if so how the call ends, by the last answer and what was held before it: silence, an unreadable packet or one the reassembler refuses raises, a verdict closes, a challenge with no EAP gives nothing or ends a drain, anything else delivers |
| DatagramLaws.RelayIsExact | proxy/downstream_server.py:210-229 | In passthrough mode, and for packets that are not EAP-TLS in either mode, against any server: one request with the very packet that came, a reply if and only if there is an answer, under the matching code, its EAP octets as they are, except that an Access-Reject's packet to an EAP-TLS packet is dropped; and exactly what this does to the session and its counters |
| DatagramLaws.MalformedIsIgnored | proxy/eap_tls.py:103-138 | A malformed EAP-TLS packet, in either mode, makes no request, draws no reply and leaves its session as it was but for the authenticator |
| DatagramLaws.ServedExactly | proxy/downstream_server.py:114-132 | A datagram that is no Access-Request, has no EAP-Message or a bad Message-Authenticator changes nothing and draws no reply; any other draws one if and only if its packet is handled without an exception |
| DatagramLaws.ReplyFields | proxy/downstream_server.py:233-262 | The code of a reply is the session's verdict, or Access-Challenge; a State goes with a challenge only, the session's own or the fresh token; key blobs go with an Access-Accept only, and are the session's |
| DatagramLaws.RequestsSpeakForTheDatagram | proxy/upstream_radius.py:227-239 | Every request made for a datagram bears its authenticator and user name, and each station identifier it names, none that is absent or empty |
| DatagramLaws.FirstIdentifierIsOne | proxy/session.py:143-145 | With no Request to echo, the first packet a new session sends upstream has Identifier 1 |
| DatagramLaws.SweepIsExact | proxy/session.py:217-224 | A sweep takes exactly the overdue sessions without a result, in a table at rest all the overdue ones, and touches no other |
| SupplicantLegLaws.StampIsOneOctet | proxy/mediator.py:268-290 | Restamping changes octet 1 of a terminal packet and nothing else |
| SupplicantLegLaws.AcksDrawTheQueue | proxy/mediator.py:110-114 | Any number of ACKs draws exactly the next chunks in order, L with the total on the first only, M on all but the last, with no word to the server |
| SupplicantLegLaws.DownwardConservation | proxy/mediator.py:345-373 | After any number of ACKs the payloads sent and the payloads queued make up the record, in order |
| SupplicantLegLaws.NextFragmentIsSent | proxy/mediator.py:354-373 | Sending one fragment: the right packet, the queue one shorter, only the counters touched besides |
| Reassembly.StreamIsReassembled | proxy/eap_tls.py:204-249 | For any series of messages, however cut and wherever ACKs are mixed in, exactly those messages come out in order, and the fragment count is that of the last message |
| Reassembly.AcksAreInvisible | proxy/eap_tls.py:215-218 | ACK packets anywhere change nothing |
| Reassembly.TrainCompletes | proxy/eap_tls.py:220-249 | The packets of one message give it at the last of them, from any resting state |
| Reassembly.MessageSurvivesTheWire | proxy/eap_tls.py:254-273 | Fragment, build, parse and ingest give every message back once, at the last packet, and no data packet is taken for an ACK |
| Reassembly.OverflowIsSticky | proxy/eap_tls.py:232-236 | The limit is broken exactly when the buffer check raises, and then every later data packet raises |
| Reassembly.IngestEnds | proxy/eap_tls.py:210-249 | Exactly when a call raises and what, when it wants more, the message it gives, which is within the limit, and what it counts and keeps of the length declared |
| Reassemblers.Reassembler.Ingest | proxy/eap_tls.py:210-249 | The object's new state and result, also on a raise, are those of the specification |
| Reassemblers.Reassembler.Reset | proxy/eap_tls.py:204-208 | Back to the empty state |
| EapTls.Parse | proxy/eap_tls.py:100-146 | Which packets are accepted, exactly; the length field is present just when L is set |
| EapTls.ParseReads | proxy/eap_tls.py:100-146 | Any packet at all, octet by octet: which check refuses it, or else what each field is and which octets are the data |
| EapTls.ParseOfBuild | proxy/eap_tls.py:149-170 | Parsing what was built gives the fields back, whatever padding follows |
| EapTls.BuildOfParse | proxy/eap_tls.py:100-170 | Building from the parsed fields of a canonical packet gives the same octets |
| EapTls.EncodeLayout | proxy/eap_tls.py:155-170 | Where each field of a built packet stands, and its exact Length |
| EapTls.BuildRoundTrip | proxy/eap_tls.py:149-170 | What is built has its own Length and parses to the fields given, whatever padding follows; building raises only for a packet above 65535 octets or a total above 4 octets |
| EapTls.FragmentCuts | proxy/eap_tls.py:254-273 | Fragments join to the message, all full but the last, as few as can be, one empty one for the empty message; a size that is not positive raises |
| Octets.ChunksCutExactly | proxy/eap_tls.py:268-273 | Chunks join to the data, all but the last are full, none is empty unless the data is, and their number is exact |
| Octets.ChunkAt | proxy/eap_tls.py:270-273 | Chunk i is the slice at offset i times the size |
| Octets.ChunkCountIsCeiling | proxy/eap_tls.py:268-273 | That number is max(1, ceil(n / size)) |
| Radius.RadiusPacket.Decode | proxy/upstream_radius.py:97-132 | The loop ends on every input with exactly the attributes up to the end or the first error, each taken by its branch, or with the header error |
| Radius.ScanOfEncode | proxy/upstream_radius.py:109-132 | Decoding what was encoded gives the attribute list back |
| Radius.EncodeOfScan | proxy/upstream_radius.py:109-132 | What was decoded encodes to the input again if and only if no length octet ran past the end |
| Radius.EapRoundTrip | proxy/upstream_radius.py:328-344 | Split, encode among other attributes, vendor-specific ones included, decode and concatenate: the EAP packet comes back and every other key keeps its values in order |
| Radius.SplitIsExact | proxy/upstream_radius.py:328-334 | A packet is split in order into attributes of 253 octets and a last one that is not empty; an empty packet into one empty attribute |
| Radius.CollectKeepsOrder | proxy/upstream_radius.py:119-130 | The dictionary keeps under each key, in order, the plain values of that type and those that the library reads out of vendor attributes |
| Radius.CollectGoesOn | proxy/upstream_radius.py:127-128 | A nested attribute among any others is given to the library with the dictionary as it then stands |
| Radius.OverrunIsTakenShort | proxy/upstream_radius.py:119-132 | After any whole attributes one whose length octet runs past the end gives all that is left |
| Radius.ScanStops | proxy/upstream_radius.py:110-117 | After any whole attributes a lone octet, or a length octet below 2, stops the loop with its own error |
| ServerLegLaws.AnswerIsRead | proxy/upstream_radius.py:290-316 | From the octets of an answer to what is kept: the first State, all EAP-Message values joined, and from an Access-Accept the first of each MS-MPPE key its vendor attributes hold |
| Radius.EapAttributesGrowBy | proxy/upstream_radius.py:328-334 | An EAP packet of n octets takes n + 2 max(1, ceil(n / 253)) attribute octets, each length fitting its octet |
| Radius.FragmentSizeKeepsRadiusLength | proxy/config.py:51-54 | All packets up to a fragment size fit a RADIUS packet if and only if the largest does |
| Radius.LargestFragmentSize | proxy/config.py:51-54 | That holds, with no other attributes, exactly up to 64991 |
| Radius.ConfiguredBoundIsNotEnough | proxy/config.py:51-54 | So the configured bound does not ensure it |
| Sessions.Session.constructor | proxy/session.py:40-137 | A new session is empty, of its own objects, with its reassemblers at its limit |
| Sessions.Session.NextDownId | proxy/session.py:139-141 | The next Identifier modulo 256 |
| Sessions.Session.NextUpId | proxy/session.py:143-145 | The same upstream |
| Sessions.Session.Finish | proxy/session.py:147-149 | Sets the result |
| Upstream.UpstreamClient.SendEap | proxy/upstream_radius.py:208-325 | New session state and reply, also on a timeout, are those of the specification; nothing outside the server leg changes |
| Upstream.UpstreamClient.Transmit | proxy/upstream_radius.py:283-286 | The request is counted before it is sent and the answer is the server's to all requests so far |
| Upstream.UpstreamClient.Capture | proxy/upstream_radius.py:290-316 | Keeps the Identifier of a Request, and key blobs of an Access-Accept only |
| Mediators.Mediator.HandleSupplicantEap | proxy/mediator.py:46-159 | The session left behind, also on a raise, and the outcome are those of the specification |
| Mediators.Mediator.NotePacket | proxy/mediator.py:61-108 | The Response's Identifier restarts the downstream counter, and is remembered in reassemble mode only |
| Mediators.Mediator.HandleAck | proxy/mediator.py:112-141 | Next fragment, held result, or a poll of the server, as specified |
| Mediators.Mediator.HandleData | proxy/mediator.py:143-159 | Raise, local ACK, or forward, as specified |
| Mediators.Mediator.UpstreamId | proxy/mediator.py:132-134 | The last upstream Request's Identifier, a minted one only without any |
| Mediators.Mediator.Exchange | proxy/mediator.py:136-139 | Sends with the current State and keeps the one that comes back; a timeout keeps the old one |
| Mediators.Mediator.ForwardRecordUpstream | proxy/mediator.py:161-204 | As specified, also when a chunk times out |
| Mediators.Mediator.SendChunks | proxy/mediator.py:181-201 | The loop sends the chunks in order and returns the last answer |
| Mediators.Mediator.SendChunk | proxy/mediator.py:183-197 | One turn of that loop |
| Mediators.Mediator.HandleUpstreamReply | proxy/mediator.py:206-266 | Verdict, nothing, record or drain, as specified |
| Mediators.Mediator.AfterDrain | proxy/mediator.py:248-262 | A terminal reply in mid-drain is surfaced and no partial buffer goes down |
| Mediators.Mediator.Terminate | proxy/mediator.py:223-225 | The terminal packet restamped for the supplicant |
| Mediators.Mediator.DrainUpstreamFragments | proxy/mediator.py:292-343 | The loop computes the recursive drain and ends |
| Mediators.Mediator.AckUpstream | proxy/mediator.py:309-322 | One ACK upstream, counted under down |
| Mediators.Mediator.TakeFragment | proxy/mediator.py:323-341 | What one answer does to the drain |
| Mediators.Mediator.BeginDownstreamFragmentation | proxy/mediator.py:345-352 | Replaces the queue with the record's chunks and sends the first |
| Mediators.Mediator.SendNextDownstreamFragment | proxy/mediator.py:354-373 | Sends the head of the queue, as specified |
| Mediators.Mediator.PopFragment | proxy/mediator.py:362-365 | Takes the head of the queue and the next Identifier |
| Mediators.Mediator.CountFragment | proxy/mediator.py:370-372 | Counts a fragment out, and an ACK for one with M |
| Mediators.Mediator.PassthroughUpstream | proxy/mediator.py:375-402 | Relays, as specified |
| KeyLaws.HexReads | proxy/downstream_server.py:195-196 | The hex form has two digits for each octet that read back to it, the first counting 16 |
| KeyLaws.DecimalReads | proxy/downstream_server.py:204-205 | A number in a key is its own decimal digits, with no zero in front |
| KeyLaws.StateKeysAreApart | proxy/downstream_server.py:195-205 | Different States have different keys, and none is the key of a conversation without one |
| KeyLaws.KeysMeetExactly | proxy/downstream_server.py:195-205 | When any two datagrams have the same key: with a State, if and only if they quote the same one; without, by the calling station alone where both name one, by NAS host, port and the second octet of the EAP packet where neither does, and across if the one's calling station reads like the other's three |
| DownstreamLaws.EveryRouteIsSound | proxy/downstream_server.py:161-170 | On either route a result is set exactly with the verdict handed out, never on a raise, and by the server's last answer, of this datagram |
| DownstreamLaws.VerdictTakesAnExchange | proxy/mediator.py:112-159 | A session gets a result only in a call that had an exchange with the server |
| DownstreamLaws.DatagramKeepsTable | proxy/downstream_server.py:114-179 | One datagram with a fresh token keeps the table sound and leaves every other session exactly as it was, under its key |
| DownstreamLaws.StateReachesItsSession | proxy/downstream_server.py:183-196 | A session with a State is the one that a datagram quoting it reaches, and only such a datagram reaches it |
| DownstreamLaws.ChallengeCanBeAnswered | proxy/downstream_server.py:250-262 | Every challenge quotes a State under which the table holds the session |
| DownstreamLaws.TableIsAlwaysAtRest | proxy/session.py:193-215 | After any series of datagrams and sweeps, with any servers: each session under its own key and that of its State, none with a result, each true to its conversation, no verdict outlived but in answer to a fragment with M in reassemble mode, and there each reassembler what its conversation made it |
| DownstreamLaws.SessionsAreIsolated | proxy/session.py:193-215 | Events elsewhere, however many, leave a session exactly as it was |
| DownstreamLaws.ConversationResumes | proxy/downstream_server.py:183-196 | However much is served in between, a datagram quoting a challenge's State finds the session exactly as the challenge left it |
| DownstreamLaws.AcceptKeysAreBound | proxy/downstream_server.py:237-247 | An Access-Accept answers the datagram in which the server's came in, to a request bearing that datagram's authenticator; its keys are that answer's in passthrough, and in reassemble mode if no fragment with M of the session was accepted; any one key is if and only if the answer has it or no earlier Access-Accept of the session did |
| HastyKeys.HastyKeyGoesOutLate | proxy/mediator.py:181-201 | An instance where they are not, in two datagrams from the empty table: the second reply carries the key of an Access-Accept that came for a request with the first datagram's authenticator |
| SessionTables.SessionTable.GetOrCreate | proxy/session.py:193-205 | The session under the key, a new one of its own objects if there was none; all others untouched |
| SessionTables.SessionTable.Rekey | proxy/session.py:207-212 | Moves the session object and renames it, all others untouched |
| SessionTables.SessionTable.Drop | proxy/session.py:214-215 | Removes this key and no other |
| SessionTables.SessionTable.ReapIdle | proxy/session.py:217-224 | Removes exactly the overdue sessions that have no result |
| Downstream.DownstreamServer.HandleDatagram | proxy/downstream_server.py:114-179 | The whole new table and the reply are those of the specification; the objects of different sessions stay apart |
| Downstream.DownstreamServer.LookupSession | proxy/downstream_server.py:183-206 | Finds or creates the session under the key of the request, all others untouched, and says whether it came without a State |
| Downstream.DownstreamServer.PassthroughNonTls | proxy/downstream_server.py:210-229 | Relays a packet that is not EAP-TLS, chaining the State |
| Downstream.DownstreamServer.Route | proxy/downstream_server.py:160-170 | By the type octet, to the mediator or past it |
| Downstream.DownstreamServer.Respond | proxy/downstream_server.py:172-179 | Reply and table after it, the session dropped if it has ended |
| Downstream.DownstreamServer.BuildReply | proxy/downstream_server.py:233-272 | Code, State, EAP attributes and keys of the reply; the first challenge mints a State and rekeys |
| Downstream.DownstreamServer.Mint | proxy/downstream_server.py:258-261 | The session gets its State and stands under its key |

## Left out

- Sockets, retries, timeouts and pyrad's `Client`: an exchange is one question to an arbitrary server, whose silence is the Timeout exception.
- The server falls silent after an arbitrary finite number of requests. A server that sent fragments with M and no data for ever would keep the drain loop of `proxy/mediator.py:308` going for ever; `DrainLaws.DrainIsBounded` bounds every other drain.
- Radius.RadiusPacket.Decode: pyrad's decoders of vendor-specific and nested attributes, and its verdict on what is nested, are arbitrary functions. Integer and address attributes are octets like the rest.
- Message-Authenticator values and the encryption of keys: the check of an incoming one is a boolean of the datagram, the key blobs are opaque octets.
- Random tokens are a parameter, assumed fresh where a theorem says so.
- Upstream.UpstreamClient.SendEap: the attributes copied from the NAS (`ap_attrs`) and the treatment of Framed-MTU are not modelled; the theorems on whole runs only bound the octets they take.
- Downstream.DownstreamServer.HandleDatagram: does not capture those attributes, nor hand the summary to the reporter.
- Sessions.Session.constructor: has no `ap_address`, `ap_attrs` or clock.
- Sessions.Session.Finish: keeps no time.
- SessionTables.SessionTable.ReapIdle: takes the overdue keys as given, there being no clock.
- Configuration loading and the command line.
- The two counters records of a session are values in its fields, so sharing of one such record between sessions could not be seen; the source never shares one.
- What pyrad raises for a RADIUS packet above 65535 octets: the mediator and the table do not fail on one, the strict ends never get it.
- Transparency.AuthenticationIsIdeal: like every theorem on whole runs, assumes that the largest message fits the 4-octet TLS Message Length, that a server sends Start only in answer to Identity, and that it accepts or rejects only when it has heard a whole message or a poll. What happens against any other server is in the laws of the two legs.
- Transparency.ProxyIsTransparent: assumes a supplicant that waits for each answer; what any other packet does to the queue is in `CountingLaws.PacketCounts`.
- PassthroughRun.NextTurn: assumes that the server gives consecutive Requests different Identifiers; in reassemble mode they need no such assumption.
- Exceptions from logging, reporting or sending the reply.
