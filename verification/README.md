# Verified models of 4diac FORTE

4diac FORTE is a runtime for IEC 61499 control applications: function blocks (FBs) in a tree of containers, joined by
event and data connections, run by event-chain threads and a tick-driven timer, and talking to the field over Modbus,
MQTT and HTTP. This project models the parts of it whose correctness spans whole runs, whole graphs or unbounded
inputs, and proves what those parts promise. `dafny verify dfyconfig.toml` checks all of it.

| files | what they model |
|---|---|
| `Connections.dfy`, `Forest.dfy` | data, gathering and in-out connections of a resource, the value pushed down a tree of in-out pins, reference counts |
| `Timer.dfy` | the timer handler: sorted list, deferred additions and removals, ticks |
| `RingBuffer.dfy`, `EventChain.dfy` | the bounded event queue and the wake-up protocol of the event-chain thread |
| `Mqtt.dfy` | the MQTT handler with its coalescing flag, and the client state machine under library callbacks |
| `ModbusCodec.dfy`, `ModbusAddress.dfy`, `ModbusLayout.dfy` | the value codec, the address-list parser, the layout of ranges in one buffer |
| `Http.dfy`, `HttpParser.dfy` | the HTTP printer and parser as functions on text, and in place over a NUL-terminated buffer |
| `FBTree.dfy`, `FBPaths.dfy`, `FBContainer.dfy` | managed states and the sorted container tree as functions on trees, and as objects that hold their children |
| `LinkedList.dfy` | the singly linked list over heap cells |
| `Arith.dfy`, `Seqs.dfy`, `CStrings.dfy`, `Common.dfy` | division and remainder, sequences, the C string functions, what several models share |

Code that changes things in place is modelled by classes, arrays and loops (`TimerHandler`, `ConnectionGraph`,
`RingBuffer`, `MqttClient`, `IOBlock`, `Container`, `SinglyLinkedList`, the buffers of the codec and of the HTTP
parser). Each of their methods is proved equal to a function of the old state, and the laws are proved of those
functions. Protocols between threads are state machines over atomic steps, and their laws hold for every interleaving.

## Findings

Where the code falls short of what it is for, the model keeps the code, and a lemma states exactly when it is right.

- An interval that is a multiple of 2^32 ticks is narrowed to the one-shot indicator (`Timer.IntervalExact`), and
  unregistering does not reach a registration that has not been merged yet (`Timer.UnregisterSilences`). An FB that is
  unregistered and registered again between the two critical sections of one tick never fires after it
  (`Timer.ReregisteredBetween`; everywhere else it keeps just the new registration, `Timer.ReregisteredOutside`).
- An in-out link may close a circle (`Connections.SelfLinkCloses`); it does exactly when its destination is reached by
  climbing from its source (`Connections.CreateInOutKeeps`). Re-pointing a connected out connection to another variable
  breaks the aliasing with its source (`Connections.SetValueKeepsAliasing`). These are the only two steps that break an
  invariant (`Connections.StepKeepsExactly`).
- A block that is no longer referenced stays undeletable exactly if one of its plain links was created again
  (`Connections.DeletableIsUnreferenced`, with the run `Connections.CreatedTwiceStays`).
- A link that reads a member of an in-out pin cannot be deleted by the name it was created with, but by that of the
  data output with the same number (`Connections.LinkDeletable`, `Connections.MemberLinkDeletable`).
- Four steps leave an MQTT client alone until something else wakes the handler, although no resume request is lost
  (`Mqtt.NoRequestLost`) and each is served (`Mqtt.RequestReachesScan`): a new client is listed only after the library
  has called it back (`Mqtt.ListedTooLate`); the layer whose answer a client waits for is removed
  (`Mqtt.RemovedWhileUnanswered`); the library refuses a connect call (`Mqtt.RefusedConnectSleeps`); or the subscribe
  call is made for a layer that has been removed (`Mqtt.CalledAfterRemoval`). `Mqtt.NextKeepsExactly` shows that these
  are the only ones, and `Mqtt.ListingExactly`, `Mqtt.PeerStepExactly`, `Mqtt.ScanStepExactly` and `Mqtt.CallExactly`
  say exactly when they do it.
- The answer to a subscribe call for a layer that is no longer registered follows the layer's null pointer to its client
  (`com/mqtt_paho/MQTTClient.cpp:145-147`, `com/mqtt_paho/MQTTHandler.cpp:81`). Such a call is outstanding exactly when
  a layer was removed while its call was unanswered or the call was made for a removed layer
  (`Mqtt.NextOrphansExactly`, `Mqtt.RunNeverOrphans`), and both happen (`Mqtt.RemovedWhileUnanswered`,
  `Mqtt.CalledAfterRemoval`).
- A late acknowledgement lets an MQTT client without a connection claim that all is subscribed (`Mqtt.StaleAckLies`).
  Only such an acknowledgement does (`Mqtt.NextTruthfulExactly`, `Mqtt.RunTruthful`).
- Values beyond the end of a Modbus reply read old bytes of the buffer, since the room left is computed in unsigned
  arithmetic (`ModbusCodec.ZeroFillExactly`). Range sizes that add up to 2^32 bytes or more break the layout
  (`ModbusLayout.ReadsTileTheCache`, `ModbusLayout.ReadsStayInCache`, `ModbusLayout.WritesStayInBuffer`), and one range
  written backwards, such as `h10..5`, is enough (`ModbusLayout.BackwardRangeWraps`).
- Outputs that need more room than the Modbus receive buffer has are read from beyond it exactly if one of them begins
  beyond the reply and does not end inside the buffer (`ModbusCodec.OverrunsExactly`).
- Without a content type the HTTP header is never ended, so the body is lost (`Http.BodyRoundTrip`,
  `Http.ResponseRoundTrip`); with an empty path the query is taken for the path (`Http.PathSurvives`).
- A Stop that fails half-way may leave an FB running below a stopped one, and a later Kill then reports success
  (`FBTree.FailedStopHides`). `FBTree.KeepsNoneHidden` says exactly when a failing command does so, and
  `FBTree.StopsAll` exactly when success can be trusted.
- A node with the empty name breaks the order of its siblings unless it has none (`FBPaths.EmptyNameOrder`);
  `FBPaths.CreateAnswers` says exactly which creations put one into the tree.

The semaphore of the POSIX port is binary (`core/arch/posix/src/forte_sem.cpp:51-63`), and others may count. The
event-chain and MQTT models therefore take the highest count as a parameter, and their laws hold for both kinds.

## Model

| member | source | states |
|---|---|---|
| Timer.IntervalExact | core/src/timerha.cpp:44-47 | a registration keeps its period exactly below 2^32 ticks, turns into a one-shot exactly at multiples of 2^32 ticks, and waits one tick below one unit |
| Timer.IntervalNarrows | core/src/timerha.cpp:44-47 | the number of ticks is the quotient less a multiple of 2^32 |
| Timer.TickKeepsInv | core/src/timerha.cpp:70-111 | after every tick the list is sorted and every timeout is strictly in the future |
| Timer.InsertAt | core/src/timerha.cpp:54-57 | a new entry comes last among those with its timeout, and no other queue changes |
| Timer.RemoveInOrder | core/src/timerha.cpp:64-68 | a removal takes out the entries of its FB one by one and leaves the others in their order |
| Timer.TickIsCalendarQueue | core/src/timerha.cpp:70-117 | a tick fires exactly the entries due now whose FB is not removed, ties in the order in which they entered the list, then the late additions; every later queue is what waited in it and is not removed, then the re-armed entries in firing order, then the additions in registration order |
| Timer.TickRefines | core/src/timerha.cpp:70-117 | one tick of the sorted list fires each FB as often as the bag of registrations says, and still refines it |
| Timer.RunRefinesBag | core/src/timerha.cpp:34-117 | over every run of registrations, removals and ticks the sorted list fires as the bag of registrations does |
| Timer.ForecastHolds | core/src/timerha.cpp:70-117 | while a run leaves an FB alone, it fires at each tick as forecast at the start of the run |
| Timer.ExactSchedule | core/src/timerha.cpp:34-111 | whatever other FBs do, a registration first fires at its timeout or its merging tick, whichever is later, then in steps of its interval and never else; computing the timeout and appending may be split by ticks |
| Timer.PeriodicCount | core/src/timerha.cpp:39-42 | registered at t with interval i, a periodic FB fires floor((N - t) / i) times by tick N, at t + k exactly when i divides k |
| Timer.OneShotOnce | core/src/timerha.cpp:34-37 | a one-shot fires exactly once, at t + i |
| Timer.UnregisterSilences | core/src/timerha.cpp:59-68 | an unregistered FB never fires again exactly if none of its registrations is still waiting to be added |
| Timer.SplitTickLinearizes | core/src/timerha.cpp:70-117 | whatever other threads register and unregister between the two critical sections of a tick, it is as if they had registered before it and unregistered after it |
| Timer.ReregisteredOutside | core/src/timerha.cpp:34-68 | an FB that is unregistered and registered again in one go fires exactly as the new registration says |
| Timer.ReregisteredBetween | core/src/timerha.cpp:101-117 | if both fall between the two critical sections of a tick, it never fires after that tick |
| Timer.TimerHandler.constructor | core/src/timerha.cpp:26-30 | the handler starts at time zero with empty lists |
| Timer.TimerHandler.RegisterOneShotTimedFB | core/src/timerha.cpp:34-37 | appends an entry for now plus the interval, marked one-shot, and changes nothing else |
| Timer.TimerHandler.RegisterPeriodicTimedFB | core/src/timerha.cpp:39-42 | appends an entry for now plus the interval with that interval |
| Timer.TimerHandler.AddToAddFBList | core/src/timerha.cpp:49-52 | the entry goes to the end of the additions |
| Timer.TimerHandler.UnregisterTimedFB | core/src/timerha.cpp:59-62 | the FB goes to the end of the removals |
| Timer.TimerHandler.FindUpperBound | core/src/timerha.cpp:55-85 | binary search finds the number of leading entries that are due |
| Timer.TimerHandler.AddTimedFBEntry | core/src/timerha.cpp:54-57 | inserts behind all entries with the same timeout and keeps the list sorted |
| Timer.TimerHandler.RemoveTimedFB | core/src/timerha.cpp:64-68 | exactly the entries of that FB go, the rest stays in order |
| Timer.TimerHandler.TriggerTimedFB | core/src/timerha.cpp:93-99 | starts one event chain and re-arms a periodic entry from now |
| Timer.TimerHandler.ProcessTimedFBList | core/src/timerha.cpp:84-91 | fires the due prefix in order and puts the re-armed entries back |
| Timer.TimerHandler.ProcessAddList | core/src/timerha.cpp:101-111 | late additions fire at once, the others enter the list, and nothing stays waiting |
| Timer.TimerHandler.ProcessRemoveList | core/src/timerha.cpp:113-117 | every entry of every listed FB goes |
| Timer.TimerHandler.NextTick | core/src/timerha.cpp:70-82 | the handler does exactly the specified tick and starts exactly the specified event chains, in order |
| Connections.GatheringIsPartialMap | core/src/dataconn.cpp:93-180 | a struct pin is a partial map from members to sources: a member gets a source exactly if it has none and no plain link is there, loses it exactly if it has one; a gathering connection exists exactly if the map is not empty |
| Connections.AttachDetachRestores | core/src/gatherdataconn.cpp:67-108 | attaching and detaching a member restores the very pin |
| Connections.PaintAll | core/src/inoutdataconn.cpp:75-80 | setting the own value and then those of all destinations re-points exactly the subtree |
| Connections.AliasedAfterConnect | core/src/funcbloc.cpp:148-166 | pushing the source's value down from the new pin aliases the new edge and keeps the old ones |
| Connections.SetValueKeepsAliasing | core/src/inoutdataconn.cpp:75-80 | re-pointing an out connection keeps all edges aliased exactly if its own pin is free or already refers to that variable |
| Connections.RepointValues | core/src/inoutdataconn.cpp:75-80 | re-pointing an out connection gives the variable to exactly what lies below it |
| Connections.CountAdded | core/src/dataconn.cpp:45-51 | a new link raises the live count of its ends, and of them only |
| Connections.CountDropped | core/src/dataconn.cpp:111-112 | a dropped link lowers the live count of its ends, and of them only |
| Connections.CreateDataKeeps | core/src/dataconn.cpp:31-51 | connecting a plain link keeps every invariant of the graph |
| Connections.CreateMemberKeeps | core/src/dataconn.cpp:148-180 | connecting a member keeps every invariant |
| Connections.DeleteDataKeeps | core/src/dataconn.cpp:78-113 | disconnecting a plain link keeps every invariant |
| Connections.DeleteMemberKeeps | core/src/dataconn.cpp:98-112 | disconnecting a member keeps every invariant |
| Connections.CreateInOutKeeps | core/src/inoutdataconn.cpp:20-100 | an in-out link is accepted exactly if its pin is free, keeps every invariant, and keeps the forest acyclic exactly if climbing from its source does not reach its destination |
| Forest.ClimbsIsBelow | core/src/inoutdataconn.cpp:82-100 | following the input pointers of the pins decides what lies below what, without any further record |
| Connections.DeleteInOutKeeps | core/src/inoutdataconn.cpp:47-73 | disconnecting an in-out link keeps every invariant |
| Connections.LinksExactly | core/src/resource.cpp:413-468 | each response is given for exactly one reason that the pointers tell; a command that is carried out puts exactly this source to, or takes it from, exactly this end, and every other link stays |
| Connections.CountsExactly | core/src/inoutdataconn.cpp:42-72 | a command that is carried out counts the source of its link, and the end of an in-out link too, once up or once down, and no other block |
| Connections.ValuesExactly | core/src/inoutdataconn.cpp:75-100 | a new in-out link gives its source's variable to exactly what lies below its end; no other command touches a value |
| Connections.DestinationsInOrder | core/src/inoutdataconn.cpp:63-98 | a new destination comes last, and a deleted one leaves the others in order |
| Connections.DataRestored | core/src/dataconn.cpp:31-113 | a plain link deleted by its printed name leaves the very graph in which it was created |
| Connections.MemberRestored | core/src/dataconn.cpp:98-180 | and so does a member link |
| Connections.InOutRestored | core/src/inoutdataconn.cpp:20-73 | and an in-out link, but for the values below its end |
| Connections.ApplyFramed | core/src/resource.cpp:413-468 | a rejected command changes nothing at all, and no command adds or removes blocks or pins |
| Connections.ApplyKeeps | core/src/resource.cpp:413-468 | a command keeps every invariant (wired both ways, aliased, pins tied to live links, counts), and acyclicity exactly unless it closes a circle |
| Connections.LinkDeletable | core/src/resource.cpp:449-454 | a plain link is deleted by the name it was created with exactly unless it reads a member of an in-out pin, and always by the name that is printed for it |
| Connections.MemberLinkDeletable | core/src/membdataconn.cpp:17-20 | and so is a member link |
| Connections.StepKeepsExactly | core/src/resource.cpp:413-468 | a command or a re-pointed out connection keeps every invariant exactly unless it closes a circle or tears a connected out connection from the variable of its source |
| Connections.CountOverRun | core/src/resource.cpp:413-468 | over every run of commands and re-pointed out connections a block's count is the number of live links it must outlive plus the number of its plain links created again |
| Connections.UnreferencedCount | core/src/dataconn.cpp:49-111 | the live count is zero exactly if no pointer of the graph leads to the block's connections |
| Connections.DeletableIsUnreferenced | core/include/forte/funcbloc.h:272-282 | the count is zero exactly if nothing refers to the block and none of its plain links was created again |
| Connections.SelfLinkCloses | core/src/inoutdataconn.cpp:82-100 | a reachable circle: a pin linked to itself |
| Connections.CreatedTwiceStays | core/src/funcbloc.cpp:131-137 | a reachable run: created twice and deleted once, a link leaves its unreferenced source counted |
| Connections.FreshIsGood | core/src/resource.cpp:413-468 | blocks without connections satisfy every invariant |
| Connections.ConnectionGraph.constructor | core/src/dataconn.cpp:26-29 | a graph of unconnected blocks |
| Connections.ConnectionGraph.SetValue | core/src/inoutdataconn.cpp:75-80 | one call re-points the whole subtree and nothing outside it, and the mutual recursion ends |
| Connections.ConnectionGraph.ConnectDIO | core/src/funcbloc.cpp:148-166 | an in-out pin takes a connection exactly if it is free or has that one already, and then its subtree refers to its value |
| Connections.ConnectionGraph.ConnectPlain | core/src/dataconn.cpp:31-51 | the pin, the count and the response of a plain link, for free, connected and gathering pins |
| Connections.ConnectionGraph.ConnectMember | core/src/dataconn.cpp:148-180 | the pin, the count and the response of a member link |
| Connections.ConnectionGraph.DisconnectPlain | core/src/dataconn.cpp:78-113 | the link goes exactly if it comes from that source |
| Connections.ConnectionGraph.DisconnectMember | core/src/dataconn.cpp:98-112 | the member link goes exactly if it comes from that source, and an emptied gathering connection with it |
| Connections.ConnectionGraph.EstablishInOut | core/src/inoutdataconn.cpp:82-100 | pin pointer, destination list and values change together or not at all |
| Connections.ConnectionGraph.ConnectInOut | core/src/inoutdataconn.cpp:20-45 | the in-out link of the specification, with both counts |
| Connections.ConnectionGraph.DisconnectInOut | core/src/inoutdataconn.cpp:47-73 | the in-out link goes from both of its ends, with both counts |
| Connections.ConnectionGraph.CreateConnection | core/src/resource.cpp:413-435 | resolves both ends and does what the command specifies, with its error responses |
| Connections.ConnectionGraph.DeleteConnection | core/src/resource.cpp:437-468 | resolves both ends and does what the command specifies, with its error responses |
| Connections.FindMember | core/src/gatherdataconn.cpp:89-95 | whether the member has a source |
| Connections.MemberSource | core/src/gatherdataconn.cpp:110-117 | the source the partial map gives the member |
| Connections.EraseIf | core/src/gatherdataconn.cpp:102-108 | exactly that member is erased |
| Connections.RemoveDestination | core/src/inoutdataconn.cpp:63-68 | exactly that destination is removed, and the list keeps its length exactly if it was not there |
| RingBuffer.MaskOfWrapped | core/include/forte/util/ringbuf.h:52-55 | masking a wrapped index gives the slot of the unwrapped one |
| RingBuffer.WindowPush | core/include/forte/util/ringbuf.h:24-30 | writing the next slot appends to the queue and touches no element of it |
| RingBuffer.WindowPop | core/include/forte/util/ringbuf.h:32-37 | the queue is its first slot followed by the rest |
| RingBuffer.RingBuffer.constructor | core/include/forte/util/ringbuf.h:20-22 | an empty queue |
| RingBuffer.RingBuffer.IsEmpty | core/include/forte/util/ringbuf.h:44-46 | the wrapped indices are equal exactly if the queue is empty |
| RingBuffer.RingBuffer.IsFull | core/include/forte/util/ringbuf.h:48-50 | full means one slot less than the size |
| RingBuffer.RingBuffer.Push | core/include/forte/util/ringbuf.h:24-30 | appends exactly if there is room, over any number of wrap-arounds |
| RingBuffer.RingBuffer.Pop | core/include/forte/util/ringbuf.h:32-37 | takes the oldest element, or none exactly if the queue is empty |
| RingBuffer.RingBuffer.Clear | core/include/forte/util/ringbuf.h:39-42 | the queue is empty |
| EventChain.NextKeeps | core/src/ecet.cpp:35-107 | every atomic step of thread, producers, Start, Stop and Kill keeps the invariant |
| EventChain.RunKeeps | core/src/ecet.cpp:35-107 | and so does every interleaving |
| EventChain.NothingLost | core/src/ecet.cpp:47-93 | over every run without Kill, what waited or was accepted from outside is what was transferred and what still waits, and what was in the event list or entered it, batch by batch as far as there was room, is what was delivered and what is still in it, each in order |
| EventChain.KillForgets | core/src/ecet.cpp:62-69 | after Kill nothing that was accepted or listed before is transferred or delivered |
| EventChain.NoLostWakeup | core/src/ecet.cpp:47-93 | whenever the thread sleeps and nobody is about to wake it, it is not stopped and both lists are empty; so without Kill every accepted event was transferred and every event for which there was room was delivered, once and in order |
| EventChain.EventsDelivered | core/src/ecet.cpp:47-93 | at rest, the delivered events from outside are those of the transfers as far as there was room, in the order of acceptance, and all the accepted ones exactly if every transfer found room; and the delivered events of FBs are those for which there was room when they were added |
| EventChain.TransferredWithin | core/src/ecet.cpp:47-77 | what waits outside is transferred, in order, within the distance of the thread from its next transfer |
| EventChain.TransferredSoon | core/src/ecet.cpp:47-77 | with no wake-up outstanding, five steps of the thread transfer everything accepted, whatever the producers do |
| EventChain.PushExternal | core/src/ecet.cpp:79-93 | the event is appended exactly if there is room, else dropped, as in the step of the protocol |
| EventChain.AddEventEntry | core/include/forte/ecet.h:44-53 | the event is appended exactly if there is room, else dropped |
| EventChain.TransferExternalEvents | core/src/ecet.cpp:71-77 | drains the external list; its events are appended in order as far as there is room, as in the step of the protocol |
| Mqtt.MqttClient.constructor | com/mqtt_paho/MQTTClient.cpp:227-231 | a new client has asked for its connection and has no layers |
| Mqtt.MqttClient.Reconnect | com/mqtt_paho/MQTTClient.cpp:263-271 | the client is not connected and exactly the registered subscribers are pending, as after a loss of the connection in the protocol |
| Mqtt.MqttClient.AddLayer | com/mqtt_paho/MQTTClient.cpp:273-283 | a new subscriber is pending, and asks for a wake-up exactly if all was subscribed |
| Mqtt.MqttClient.RemoveLayer | com/mqtt_paho/MQTTClient.cpp:285-288 | the layer goes in all its occurrences |
| Mqtt.MqttClient.SubscribeSucceed | com/mqtt_paho/MQTTClient.cpp:142-154 | the acknowledged layer is no longer pending, all is subscribed if none is, and else the handler is asked to resume |
| Mqtt.Partitioned | com/mqtt_paho/MQTTClient.cpp:297-303 | partition and erase remove exactly that layer, up to order |
| Mqtt.FlagInvKept | com/mqtt_paho/MQTTHandler.cpp:99-135 | in every step the flag says "not empty" only while there is something to take, and a completed request is ahead of a scan |
| Mqtt.NoRequestLost | com/mqtt_paho/MQTTHandler.cpp:99-135 | in every interleaving: whenever the handler sleeps with no caller in flight, it is not being stopped, the flag says empty, and no request completed in the run is left without a later scan |
| Mqtt.RequestReachesScan | com/mqtt_paho/MQTTHandler.cpp:99-135 | in every interleaving and wherever the handler is: once a request is completed, the handler begins a scan of all listed clients within a stated number of its moves, whatever callers, callbacks and layers do meanwhile, unless it is stopped |
| Mqtt.HandlerCanMove | com/mqtt_paho/MQTTHandler.cpp:99-135 | and with a request outstanding it can move exactly unless a caller is in the critical region |
| Mqtt.PeerNextSettles | com/mqtt_paho/MQTTClient.cpp:112-165 | a callback or command leaves a settled client settled or asks for a wake-up, exactly unless it removes the layer of the only answer that can still reach it |
| Mqtt.PeerStepExactly | com/mqtt_paho/MQTTClient.cpp:285-288 | in a state, that removal breaks the wake-up invariant exactly if neither a wake-up nor the current scan will reach the client |
| Mqtt.ListingExactly | com/mqtt_paho/MQTTHandler.cpp:59-63 | listing a new client keeps the wake-up invariant exactly if it finds the client still waiting for its connection, or a wake-up or a scan that will reach it is still ahead |
| Mqtt.CallExactly | com/mqtt_paho/MQTTClient.cpp:243-252 | the subscribe call keeps the wake-up invariant exactly unless its layer was removed while the lock was given up and no other answer is outstanding |
| Mqtt.ScanStepExactly | com/mqtt_paho/MQTTClient.cpp:234-261 | a visit keeps the wake-up invariant exactly unless the library refuses the connect call and no wake-up is outstanding |
| Mqtt.HandlerStepExactly | com/mqtt_paho/MQTTHandler.cpp:99-117 | a step of the handler keeps the wake-up invariant exactly unless it is such a visit or such a call; every other step keeps it |
| Mqtt.NextKeepsExactly | com/mqtt_paho/MQTTHandler.cpp:47-135 | a step of anybody keeps the wake-up invariant exactly unless it is one of the four that strand a client |
| Mqtt.RunKeeps | com/mqtt_paho/MQTTHandler.cpp:47-135 | and so does every interleaving without such a step |
| Mqtt.QuiescentMeansSettled | com/mqtt_paho/MQTTHandler.cpp:99-135 | in every interleaving without such a step: whenever the handler sleeps with no caller in flight, each listed client has all subscribed or waits for an answer of the library that will reach it |
| Mqtt.LossPends | com/mqtt_paho/MQTTClient.cpp:263-271 | after a loss of the connection each registered subscriber is pending as often as it is registered, nothing else is, and the handler is asked to resume |
| Mqtt.PeerNextSubscribed | com/mqtt_paho/MQTTClient.cpp:112-165 | every callback and command keeps each registered subscriber pending or acknowledged since it was registered and the connection last lost |
| Mqtt.RunSubscribed | com/mqtt_paho/MQTTClient.cpp:234-303 | and so does every interleaving, with the handler's visits; what is acknowledged is read off the actions of the run |
| Mqtt.AllSubscribedIsTrue | com/mqtt_paho/MQTTClient.cpp:112-165 | in every interleaving, all subscribed means that nothing is pending and that the run holds for each registered subscriber an acknowledgement of its call, after which it is not registered again and the connection is not lost |
| Mqtt.OutstandingWasCalled | com/mqtt_paho/MQTTClient.cpp:243-252 | in every interleaving, a call that can be answered was made by the handler for that client and that layer |
| Mqtt.ChosenIsPending | com/mqtt_paho/MQTTClient.cpp:243-249 | the handler calls for a pending layer of a client that subscribes |
| Mqtt.TruthfulUnlessStale | com/mqtt_paho/MQTTClient.cpp:142-154 | a callback or command keeps a client's claim of a connection true exactly unless it is a late acknowledgement that leaves nothing pending |
| Mqtt.NextTruthfulExactly | com/mqtt_paho/MQTTClient.cpp:234-303 | a step of anybody keeps the claims of all clients true exactly unless it delivers such an acknowledgement |
| Mqtt.RunTruthful | com/mqtt_paho/MQTTClient.cpp:234-303 | in every interleaving without such an acknowledgement every client claims a connection only while it has one |
| Mqtt.NextOrphansExactly | com/mqtt_paho/MQTTHandler.cpp:77-83 | a step of anybody keeps every unanswered call on a registered layer exactly unless it removes a layer whose call is unanswered or makes a call for a removed layer |
| Mqtt.RunNeverOrphans | com/mqtt_paho/MQTTClient.cpp:142-165 | in every interleaving without such a step no answer finds its layer without a client |
| Mqtt.RefusedConnectSleeps | com/mqtt_paho/MQTTClient.cpp:238-242 | a reachable state: after a refused connect call the handler sleeps, nobody will wake it, and the client is not connected and has no connect call on its way |
| Mqtt.ListedTooLate | com/mqtt_paho/MQTTHandler.cpp:59-63 | a reachable state: the handler sleeps, nobody will wake it, and a connected client has a pending layer for which no call was made |
| Mqtt.Registers | com/mqtt_paho/MQTTHandler.cpp:67-75 | a reachable state: a listed client with one layer waits for its connection |
| Mqtt.Connects | com/mqtt_paho/MQTTClient.cpp:122-130 | a reachable state: it is connected and the scan that will visit it has begun |
| Mqtt.Subscribes | com/mqtt_paho/MQTTClient.cpp:243-257 | a reachable state: its subscribe call is unanswered and the handler sleeps |
| Mqtt.RemovedWhileUnanswered | com/mqtt_paho/MQTTHandler.cpp:77-83 | a reachable state: the handler sleeps, nobody will wake it, a registered layer is pending without a call, and the outstanding answer is for a removed layer, whose pointer to its client is null |
| Mqtt.CalledAfterRemoval | com/mqtt_paho/MQTTClient.cpp:243-252 | a reachable state: the handler sleeps, nobody will wake it, and the only outstanding answer is for a layer that was removed before the call was made |
| Mqtt.StaleAckLies | com/mqtt_paho/MQTTClient.cpp:290-295 | a reachable state: all subscribed without a connection |
| ModbusCodec.SwapWordsTwice | com/modbus/modbuslayer.cpp:397-407 | reversing the 16-bit words twice gives back the bytes |
| ModbusCodec.ConvertTwice | com/modbus/modbuslayer.cpp:391-419 | and so does the conversion for every size |
| ModbusCodec.ConvertAt | com/modbus/modbuslayer.cpp:397-407 | on the wire the words of a longer value lie in reverse order, the bytes of each word in their own |
| ModbusCodec.ConvertShort | com/modbus/modbuslayer.cpp:391-396 | a value of at most two bytes travels as it is |
| ModbusCodec.SizesOfTypes | com/modbus/modbuslayer.cpp:96-234 | the bytes that a value of each type takes |
| ModbusCodec.EncodeAt | com/modbus/modbuslayer.cpp:94-236 | on the wire each value lies at the sum of the sizes before it |
| ModbusCodec.EncodeLength | com/modbus/modbuslayer.cpp:87-237 | encoding takes the sizes of the types, at most eight bytes per value |
| ModbusCodec.DecodeEncode | com/modbus/modbuslayer.cpp:87-332 | decoding what was encoded, with the same types, gives back the same bits and consumes exactly the bytes produced |
| ModbusCodec.DecodeAt | com/modbus/modbuslayer.cpp:246-330 | each decoded value is read at the sum of the sizes before it |
| ModbusCodec.CutOffReadsZero | com/modbus/modbuslayer.cpp:396-416 | a value cut off by the end of the reply reads as zero |
| ModbusCodec.BeyondReadsOldBytes | com/modbus/modbuslayer.cpp:248-258 | a value that starts beyond the reply reads old bytes |
| ModbusCodec.ZeroFillExactly | com/modbus/modbuslayer.cpp:239-332 | missing values are zero, whatever the buffer held, exactly if none starts beyond the reply |
| ModbusCodec.ConvertFBOutput | com/modbus/modbuslayer.cpp:391-419 | the converted bytes if there are enough, else zero |
| ModbusCodec.ReverseWords | com/modbus/modbuslayer.cpp:401-407 | the loop reverses the words and keeps the bytes of each |
| ModbusCodec.ConvertDataInput | com/modbus/modbuslayer.cpp:87-237 | the buffer starts with the encoding of all values, and its length is returned |
| ModbusCodec.OverrunsExactly | com/modbus/modbuslayer.cpp:246-330 | a value is read from beyond the receive buffer exactly if some output begins beyond the reply and does not end inside the buffer |
| ModbusCodec.ProcessInterrupt | com/modbus/modbuslayer.cpp:239-332 | whether a value is read from beyond the receive buffer; and if none is, the outputs are the decoding of the buffer |
| CStrings.StrtoulPrinted | core/src/util/string_utils.cpp:106-136 | reading inverts printing for every 32-bit number that no digit follows |
| CStrings.StrtoulReads | core/src/util/string_utils.cpp:106-136 | each further digit counts ten times the number before it plus its own value, up to 32 bits, and reading stops at the first other character |
| ModbusAddress.StopOfDotted | com/modbus/modbuslayer.cpp:814-830 | the stop address of a range with dots is behind them, whatever ranges follow |
| ModbusAddress.StopOfPlain | com/modbus/modbuslayer.cpp:814-830 | a range without dots ends where it starts, whatever dots follow behind the comma |
| ModbusAddress.NextStart | com/modbus/modbuslayer.cpp:778-812 | from the last number of a range the search goes on behind the next comma, and ends when there is none |
| ModbusAddress.PrefixReadBack | com/modbus/modbuslayer.cpp:497-513 | the letter of each function, in either case, is read back as that function, and no letter as holding registers |
| ModbusAddress.CountIs | com/modbus/modbuslayer.cpp:718-720 | the count is that of the addresses from start to stop, less or plus 2^32 where that does not fit |
| ModbusAddress.RangeReadBack | com/modbus/modbuslayer.cpp:703-722 | one written range is read back with its function, start and count, whatever range follows |
| ModbusAddress.ReadsBack | com/modbus/modbuslayer.cpp:703-722 | the parser inverts a printer of functions, starts and stops for every way of writing every list of ranges |
| ModbusAddress.StartCostsComma | com/modbus/modbuslayer.cpp:778-812 | every start address but the one at the front costs a comma |
| ModbusAddress.RangesBounded | com/modbus/modbuslayer.cpp:731-750 | every string yields at most one range more than it has commas |
| ModbusAddress.ReadAddresses | com/modbus/modbuslayer.cpp:700-722 | the loop ends on every string and collects exactly the specified ranges |
| ModbusLayout.EachByteOnce | com/modbus/modbuspoll.cpp:45-75 | slices that tile a buffer cover each of its bytes once, and none outside |
| ModbusLayout.ExtentsOfFunctions | com/modbus/modbusioblock.cpp:54-63 | coils and discrete inputs take a byte each, registers two |
| ModbusLayout.ReadCallsAt | com/modbus/modbuspoll.cpp:45-75 | each range is read to where it begins, up to the first that does not fit |
| ModbusLayout.ReadsTileTheCache | com/modbus/modbuspoll.cpp:45-75 | every range is read into its own slice and the slices tile the cache, exactly if the recorded size has not wrapped around |
| ModbusLayout.ReadsStayInCache | com/modbus/modbuspoll.cpp:50-54 | no read leaves a cache of any size exactly unless the end of the first misfit wraps below that size |
| ModbusLayout.WritesStayInBuffer | com/modbus/modbusconnection.cpp:107-123 | writes are consecutive and stay in the buffer exactly unless the end of the first misfit wraps below its size |
| ModbusLayout.WriteCallsAt | com/modbus/modbusconnection.cpp:107-123 | each range goes out in full as long as it fits, and the first that does not is cut short to as many registers as there is room for |
| ModbusLayout.WrittenInFull | com/modbus/modbusconnection.cpp:107-123 | the bytes reported are those of the ranges that went out in full |
| ModbusLayout.AllSentIfTheyFit | com/modbus/modbusconnection.cpp:107-123 | all ranges go out in full exactly if they fit, and then all their bytes are reported |
| ModbusLayout.RecordedSizeSuffices | com/modbus/modbusconnection.cpp:107-123 | a buffer of the recorded send size takes all ranges, unless that size has wrapped |
| ModbusLayout.BackwardRangeWraps | com/modbus/modbuslayer.cpp:718-720 | a concrete address list whose recorded size has wrapped |
| ModbusLayout.AllReadMeansJoined | com/modbus/modbuspoll.cpp:45-75 | when every read succeeds the cache is the answers in order |
| ModbusLayout.OverlaidAt | com/modbus/modbuspoll.cpp:45-75 | after reading, each slice is the answer, or what it was when its read failed |
| ModbusLayout.OverlaidBehind | com/modbus/modbuspoll.cpp:45-75 | behind the slices nothing changes |
| ModbusLayout.IOBlock.constructor | com/modbus/modbusioblock.cpp:18-19 | no ranges, no cache, sizes zero |
| ModbusLayout.IOBlock.AllocCache | com/modbus/modbusioblock.cpp:26-28 | a new cache of the read size, all zero |
| ModbusLayout.IOBlock.AddNewRead | com/modbus/modbusioblock.cpp:30-42 | the range is added, the size stays the wrapped total, and a cache that was there has room for it |
| ModbusLayout.IOBlock.AddNewSend | com/modbus/modbusioblock.cpp:44-52 | the range is added and the size stays the wrapped total |
| ModbusLayout.ReadOneBlock | com/modbus/modbuspoll.cpp:45-75 | the calls made and the sum returned; whether a read left the cache; and if none did, the cache: slice by slice the answer, or what was there when the read failed |
| ModbusLayout.WriteData | com/modbus/modbusconnection.cpp:107-123 | the calls made and the bytes reported; unless sizes wrap, the writes stay in the buffer, and all ranges go out when it has the recorded size |
| Http.ParametersRoundTrip | com/HTTP/httpparser.cpp:211-248 | parsing inverts printing for every list of pairs without = in names and & in values |
| Http.ParametersComplete | com/HTTP/httpparser.cpp:211-248 | the pairs of a text print as that text, up to an ampersand at the end |
| Http.NoneIffDangling | com/HTTP/httpparser.cpp:219-228 | the result is none exactly if an equals sign is missing behind the first ampersand after the last one |
| Http.GetRoundTrip | com/HTTP/httpparser.cpp:27-105 | a server reads the path and the pairs that the client printed |
| Http.PathSurvives | com/HTTP/httpparser.cpp:78-105 | a path comes through exactly if it has no space, no NUL, no question mark behind its first character, and is not empty with parameters |
| Http.FieldsSkipped | com/HTTP/httpparser.cpp:119-122 | the blank line is not found inside header fields |
| Http.BodyFound | com/HTTP/httpparser.cpp:37-48 | the text behind the first blank line is the body exactly if there is a content type |
| Http.BodyRoundTrip | com/HTTP/httpparser.cpp:37-135 | a server reads the path with its query, and the exact body exactly if there is a content type |
| Http.WordsOfSpaced | core/src/util/parameterParser.cpp:34-85 | the words of a line are what its spaces separate |
| Http.TypeRoundTrip | com/HTTP/httpparser.cpp:137-148 | the method is the first word of a printed request, and the server reads it |
| Http.RequestRefused | com/HTTP/httpparser.cpp:78-135 | a request of another kind or without an end of its target is refused and nothing is assigned |
| Http.HostFields | com/HTTP/httpparser.cpp:172-184 | the host line names host and port, and the authorization is told exactly if there is one |
| Http.RequestFields | com/HTTP/httpparser.cpp:37-48 | the body lines of a request tell the type of the body and the number of its characters |
| Http.ResponseFields | com/HTTP/httpparser.cpp:150-156 | a response tells the type of what follows its blank line and how many characters that are |
| Http.ResponseRoundTrip | com/HTTP/httpparser.cpp:63-209 | a client reads the status code and the exact body, exactly if there is a content type and the status line has three words |
| HttpParser.Punch | com/HTTP/httpparser.cpp:86-90 | nothing happens exactly if the character is not in the string at the offset; otherwise its first occurrence, and no other character of the buffer, becomes a NUL |
| HttpParser.CutAt | com/HTTP/httpparser.cpp:86-94 | overwriting a separator leaves the two strings on either side of it |
| HttpParser.ParseGETParameters | com/HTTP/httpparser.cpp:211-248 | names, values and count are those of the text, and only = and & have been overwritten |
| HttpParser.ParseGetRequest | com/HTTP/httpparser.cpp:78-105 | result, path and vectors are those of the text, the vectors unchanged without a question mark; only separators have been overwritten |
| HttpParser.ParseContent | com/HTTP/httpparser.cpp:117-134 | path and content are those of the text behind the method, also on each failure; only a space has been overwritten |
| HttpParser.ParsePutPostRequest | com/HTTP/httpparser.cpp:107-135 | result, path and content are those of the text, also on each failure; only a space has been overwritten |
| HttpParser.ParseResponse | com/HTTP/httpparser.cpp:63-209 | result, code and body are those of the text, and the buffer is restored unless the status line is malformed |
| HttpParser.AddCommonHeader | com/HTTP/httpparser.cpp:158-185 | the appended pieces are the request line and one line per header field |
| HttpParser.AddBodyToRequest | com/HTTP/httpparser.cpp:37-48 | the body lines and the blank line are appended with a content type only, the body always |
| HttpParser.CreateGetRequest | com/HTTP/httpparser.cpp:27-35 | the printed GET request |
| HttpParser.CreatePutPostRequest | com/HTTP/httpparser.cpp:50-61 | the printed request with a body |
| HttpParser.CreateResponse | com/HTTP/httpparser.cpp:150-156 | the printed response |
| FBTree.StopsAll | core/src/fbcontainer.cpp:218-229 | when Stop or Kill reports success nothing runs any more, exactly if no running FB was hidden below one that is not |
| FBTree.Excused | core/src/fbcontainer.cpp:26-40 | an excused FB has refused the command, so it and what is below it are unchanged |
| FBTree.StartsAll | core/src/funcbloc.cpp:315-351 | Start succeeds exactly on trees of idle and stopped FBs, and leaves all of them running |
| FBTree.OnlyStatesChange | core/src/funcbloc.cpp:315-351 | whatever the command and its outcome, nothing but states changes |
| FBTree.StatesMove | core/src/funcbloc.cpp:315-344 | whatever the outcome, each FB keeps its state or takes the one step of the state machine that the command names |
| FBTree.TreeMoves | core/src/funcbloc.cpp:315-351 | a command that leads from one state to another takes a whole tree of FBs there |
| FBTree.CommandRefused | core/src/funcbloc.cpp:315-344 | an FB refuses a command that leads nowhere from its state, and then neither it nor anything below it changes |
| FBTree.RestartRestores | core/src/funcbloc.cpp:315-351 | stopped or killed, reset and started again, a running tree is what it was |
| FBTree.EndsAtFirst | core/src/fbcontainer.cpp:218-229 | the children change in order up to the first that answers otherwise than Ready, which gives the response; the others are left alone |
| FBTree.LeafAnswers | core/src/fbcontainer.cpp:26-40 | which states of an FB satisfy its container for which command |
| FBTree.KeepsNoneHidden | core/src/fbcontainer.cpp:218-229 | no command hides a running FB, except exactly a Stop or Kill that ends at a node and leaves an FB running to the right of the way there, below an FB on that way |
| FBTree.FailedStopHides | core/src/fbcontainer.cpp:218-229 | a failed Stop and then a successful Kill leave an FB running |
| FBPaths.IndexFinds | core/src/fbcontainer.cpp:185-198 | on sorted children binary search finds exactly what linear search finds |
| FBPaths.InsertKeepsOrder | core/src/fbcontainer.cpp:113-132 | inserting a new name where the search ends keeps the children strictly sorted |
| FBPaths.OpenMeans | core/src/fbcontainer.cpp:101-110 | a path is open exactly if every proper prefix of it that exists is dynamic |
| FBPaths.CreateAnswers | core/src/fbcontainer.cpp:94-132 | for every path each response is given exactly for its reason, and the tree stays sorted exactly unless the creation puts a node under the empty name |
| FBPaths.DeleteNeedsNames | core/src/fbcontainer.cpp:134-160 | nothing at or below an empty name is ever deleted |
| FBPaths.CreateMaps | core/src/fbcontainer.cpp:94-132 | after a creation every path leads where it did, except to the new FB with its contents and to the containers that were missing on the way, which stay even on failure |
| FBPaths.DeleteAnswers | core/src/fbcontainer.cpp:134-160 | a deletion keeps the tree sorted, and each response is given exactly for its reason |
| FBPaths.DeleteMaps | core/src/fbcontainer.cpp:134-160 | after a deletion the path and all below it lead nowhere, and every other path where it did |
| FBPaths.DeleteUndoesCreate | core/src/fbcontainer.cpp:94-160 | deleting what was created restores the map, but for the containers that were missing |
| FBPaths.GetFBLongest | core/src/fbcontainer.cpp:172-183 | getFB resolves the longest prefix of the path that exists |
| FBPaths.EmptyNameOrder | core/src/fbcontainer.cpp:190-198 | an FB with the empty name keeps the order exactly if it is the only child |
| FBContainer.Container.constructor | core/src/fbcontainer.cpp:42-45 | a tree of one node |
| FBContainer.Container.SwitchState | core/src/funcbloc.cpp:315-344 | the state and the response of one FB |
| FBContainer.Container.ChangeChild | core/src/fbcontainer.cpp:223-226 | one child changes with its subtree, no other does, and a failure is excused as specified |
| FBContainer.Container.ChangeChildren | core/src/fbcontainer.cpp:218-229 | the children change in order up to the first that fails without excuse |
| FBContainer.Container.ChangeExecutionState | core/src/funcbloc.cpp:315-351 | the objects of the tree change exactly as the tree does, and no object is added or lost |
| FBContainer.Container.GetChildrenIterator | core/src/fbcontainer.cpp:190-198 | binary search finds the first child whose name is not less |
| FBContainer.Container.HasChild | core/include/forte/fbcontainer.h:197-199 | whether that child exists and has that name |
| FBContainer.Container.InsertChild | core/src/fbcontainer.cpp:130 | the child's whole tree becomes part of this one |
| FBContainer.Container.FindOrCreateContainer | core/src/fbcontainer.cpp:200-216 | the child of that name, or a new container at its place |
| FBContainer.Container.CreateHere | core/src/fbcontainer.cpp:113-132 | the new FB becomes a child exactly as specified |
| FBContainer.Container.CreateFB | core/src/fbcontainer.cpp:94-111 | the objects of the tree change exactly as the tree does; only the new FB and new containers are added |
| FBContainer.Container.DeleteFB | core/src/fbcontainer.cpp:134-160 | the objects of the tree change exactly as the tree does, and none is added |
| FBContainer.Container.EraseChild | core/src/fbcontainer.cpp:152-153 | the child goes with all objects of its tree |
| FBContainer.Container.GetFB | core/src/fbcontainer.cpp:172-183 | the FB and the number of names used are those of the tree, and the FB is one of its objects |
| LinkedList.ListNode.constructor | core/src/fortenode.h:39-42 | a cell with its element and its link |
| LinkedList.WithoutFirstAt | core/src/fortelist.h:171-190 | exactly the first equal element goes, and the rest keeps its order |
| LinkedList.WithoutFirstNone | core/src/fortelist.h:171-190 | without an equal element nothing goes |
| LinkedList.WithoutFirstBag | core/src/fortelist.h:171-190 | one occurrence goes at most, and nothing else |
| LinkedList.SinglyLinkedList.constructor | core/src/fortelist.h:113-114 | an empty chain |
| LinkedList.SinglyLinkedList.PushFront | core/src/fortelist.h:122-128 | the element comes first in a chain of the same cells and a new one |
| LinkedList.SinglyLinkedList.PushBack | core/src/fortelist.h:131-140 | the element comes last in a chain of the same cells and a new one |
| LinkedList.SinglyLinkedList.PopFront | core/src/fortelist.h:143-150 | the first element goes, and the last-cell pointer with the last one |
| LinkedList.SinglyLinkedList.ClearAll | core/src/fortelist.h:153-157 | the loop ends with an empty chain and both pointers null |
| LinkedList.SinglyLinkedList.EraseAfter | core/src/fortelist.h:160-168 | exactly the next cell goes, the last-cell pointer follows, and the new next cell is returned |
| LinkedList.SinglyLinkedList.Erase | core/src/fortelist.h:171-190 | the first equal element goes and the chain stays acyclic and ended by its last cell |

## Left out

- Connections.ConnectionGraph: blocks, pins and connections are known by numbers in tables of one object instead of being objects with pointers to each other; the deallocation of connections is not modelled, and an out connection is known by its pin.
- Connections.Apply: a data output with the number of an in-out pin is taken to exist where a delegating connection prints its name; type checks are two inputs of a command (the pin's struct has that member, the types can be connected); generic (ANY) pins, whose type a connection sets, composite-FB interfaces, adapters and an in-out source on a plain pin that is also an in-out name are not modelled.
- Connections.CreateInOutKeeps: a link that closes a circle is only said to close it; what the code then does is not modelled, since it does not end.
- Timer.TimerHandler: the class is that of one thread, and SplitTick adds what other threads do between its critical sections; the 64-bit overflow of the tick counter is not modelled.
- EventChain.Next: the flag that only the FB tester reads is not modelled, and Kill clears both lists in one step although only one of them is locked.
- Mqtt.State: real time, the handler's sleep after a failed subscribe call, its restart, and message arrival are not modelled; a client's lock is given up earlier than in the code, which allows more interleavings; the vectors of layers are kept up to order; a layer's pointer to its client changes together with its registration, and what happens after an answer has followed a null one is not modelled (Orphaned says when there is such an answer); the list of clients is read and extended in atomic steps, although no lock protects it.
- ModbusCodec.ProcessInterrupt: memory beyond the receive buffer is not modelled, so that once a value is read from there only the fact is stated; the index of the next value is an unbounded integer; the other connection states only set flags and are not modelled.
- ModbusAddress.ReadAddresses: the source stores at most one hundred ranges in an array it does not check; here the list is unbounded, and RangesBounded says how many commas guarantee that it is short enough.
- ModbusLayout.ReadOneBlock: memory outside the cache is not modelled, so that of a read that leaves the cache only the fact is stated, and nothing about the cache afterwards; the sum of the values read is an unbounded integer.
- Http.WordsOfSpaced: the parameter parser is modelled for a space as separator only, as the status line needs it.
- HttpParser.ParseGetRequest: the buffer ends with a NUL; a buffer without one is not a C string.
- FBContainer.Container.CreateFB: is stated for sorted trees, since searching an unsorted one by halving depends on the library; the type library is an input that gives a new FB or an error.
- FBContainer.Container.ChangeExecutionState: composite FBs, resources and devices add steps of their own to this method, which are not modelled.
- LinkedList.SinglyLinkedList: cells are not freed, and an iterator is the cell it stands on.
- Sockets, the Modbus and MQTT libraries, drivers, monitoring, tracing, logging, XML responses, Lua and generated FB code are foreign calls or tables; their outcomes are inputs of the model.
- CAN, OPC UA and the connection lists of the HTTP handler are bookkeeping that would only add easy members.
