# Runetale: retries, peer signalling and persistent identity

This project models three parts of the Runetale client and proves what they are for.

* **Retries** (`Rounding`, `Interval`, `Jitter`, `Policies`, `Budget`, `BackOffObjects`, `Retry`, `Calls`): the exponential
  interval with its roundings and saturation, the randomised delay, the elapsed-time budget, stacked max-tries
  decorators, and the loop that runs an operation until an attempt decides.
* **Peer signalling** (`ByteOrder`, `Handshake`, `Completion`, `Projection`, `Traffic`, `IceObjects`, `ReceiveLoop`,
  `GatheringRuns`, `ConnState`, `ControlPlane`): the offer/answer protocol of a mesh of nodes under every interleaving and every loss of messages,
  the connection status with the goroutines that wait for it or query it, and the map from remote nodes to their
  `Ice`.
* **Persistent identity** (`KeyHex`, `AtomicFile`, `FileStore`, `CodecWitness`, `Identity`, `Spec`): the hexadecimal
  key text, a file replaced one system call at a time, the write-through store, and what survives any history of
  starts, failures and crashes.

Objects that the program updates in place are classes whose methods are proved against functions on values; the main
results are lemmas about those functions, for every input, run or reachable state. A Go interface value is a tagged
reference (`BackOffObjects.BackOff`), and a concurrent protocol is a state machine over its atomic steps.

## What is assumed

* Durations are integers and floats are the reals they stand for; a conversion drops the fraction. The clock is any
  sequence of readings that advances at least by each granted sleep (`Budget.ClockAdvances`, needed only where the
  budget is concerned), random numbers lie in [0, 1), and the outcomes of operations are an arbitrary sequence.
* A retry loop that nothing decides does not return, so `Retry.DoRetryNotify` takes a ghost index of some deciding
  attempt; `Retry.SmallestLimitDecides` and `Retry.BudgetDecides` supply one for every limited or budgeted policy.
* The credentials of an ICE agent are fixed; every list names each remote node with the public key that this node
  really has, links come in both directions, and there is one `Ice` per link (`Handshake.WellKeyed`). The signal
  server is not part of this model: it hands a message over with a lookup key that names the sender and is present in
  the receiver's map. Messages may be lost, delayed and reordered, not duplicated. A signalling call may fail although
  its message reached the network.
* `Dial`, `Accept`, `GatherCandidates` and the calls of the two servers are steps that may succeed or fail. `Setup` may
  fail before the ICE agent exists or after; the cleanup of an Ice without an agent follows a nil pointer, and the
  process panics. An Ice that has been announced goes through the channel once.
* Other goroutines may change the peer map between two arrivals of `WaitForRemoteConn`, in any way that keeps its keys
  right. During one call of any other method nobody else changes it.
* An error is a tree of wrapped errors. An `As` method either declines, or answers with a `PermanentError` that exists.
* The read of the status in `IsConnected` is atomic.
* The operating system gives a temporary file a fresh name. A crash keeps the directory as the completed system calls
  left it, keeps synced files, and leaves arbitrary contents in files that were not synced.
* JSON is a codec with `decode(encode(x)) == x`; for the state store, `{}` decodes to the empty map. That such a codec
  exists is proved (`CodecWitness.LawfulCodecExists`, `CodecWitness.LawfulSpecCodecExists`).

## Where the code and its documentation disagree

* The comment in `getRandomValueFromInterval` explains its `+1` by the interval from 1 to 3, where 1, 2 and 3 are to be
  equally likely, and so they are. The formula is fair exactly when factor times interval is an integer
  (`Jitter.FairIffDeltaIsInteger`); with the default factor it is not for any odd interval
  (`Jitter.DefaultFactorIsUnfair`). This is a limit of the formula rather than a contradiction.
* The interval is said to be multiplied at each step. A small interval can stay where it is for ever, because the
  product is rounded down (`Interval.ReachesMaximumIff`, `Interval.StuckInterval`), and one that starts above the
  maximum shrinks (`Interval.NeverDecreasesIff`).
* `Stop` is a configurable field, but the loop compares with the package constant: with any other value the budget
  never ends the loop (`Budget.NeverStops`, `Budget.StopsIffBudget`).
* A `PermanentError` with nothing inside makes `Retry` report success (`Retry.NilResultIff`,
  `Retry.NilResultHappens`).
* `WaitStartConnect` is described as waiting until the state is connected. A waiter can stay blocked while it is
  (`ConnState.MissedWakeupIff`, `ConnState.MissedWakeupHappens`).
* `SignalClient.GetConnStatus` marks the state connected, and releases every waiter, before it reads the status in
  another critical section. So it answers "connect" whatever the status was, unless a disconnection comes last between
  the two (`ConnState.QueryAnswerIff`, `ConnState.QueryAnswersDisConnect`).
* `WriteState` skips contents that are already cached. After a failed write the cache is ahead of the file, and the
  same write again reports success and writes nothing (`FileStore.InStepAfterIff`, `FileStore.RepeatedWriteIsSkipped`,
  and on a concrete store `CodecWitness.WriteIsLost`).
* `SyncRemoteNodes` is meant to keep the latest peers, but ignores a nil list, which is how an empty one arrives
  (`ControlPlane.FollowedMeaning`). It also cleans up the Ice of an unlisted node that has never been set up, which
  panics (`ControlPlane.ControlPlane.SyncRemotePeerConfig`, `ControlPlane.UnpreparedIcePanics`).
* `CreateSpec` only warns about a malformed file and then overwrites it, so a key that the decoder does not return is
  lost (`Spec.MergeOverExistingFile`, and on a concrete file `CodecWitness.KeyIsLost`). The preshared-key argument of `writeSpec` is never stored
  (`Spec.Spec.WriteSpec`).

## Model

| member | source | states |
|---|---|---|
| Jitter.DelayWithinInterval | backoff/backoff.go:126-141 | For every factor in [0, 1], every draw and every interval, the delay is non-negative and lies between the rounded ends of the interval around the current one. |
| Jitter.DelayIffDraw | backoff/backoff.go:133-140 | A delay d comes out exactly for the draws in one half-open interval between two consecutive thresholds. |
| Jitter.ThresholdsPartition | backoff/backoff.go:133-140 | The thresholds climb from 0 at the lowest delay to 1 above the highest, so those intervals partition [0, 1). |
| Jitter.FairIffDeltaIsInteger | backoff/backoff.go:126-141 | All delays that can come out are equally likely if and only if factor times interval is an integer; then each integer of the closed range has share 1/(max-min+1) and no other has any. |
| Interval.GeometricInterval | backoff/backoff.go:116-124 | After n increments the interval is at most I*q^n and the maximum, and has saturated for good or is at least I*q^n less the accumulated roundings (q^n-1)/(q-1). |
| Interval.IncrementStep | backoff/backoff.go:116-124 | One increment never shrinks the interval or passes the maximum, and loses less than one unit unless it saturates; the overflow guard holds exactly if the product reaches the maximum. |
| Interval.NeverDecreasesIff | backoff/backoff.go:116-124 | The interval never shrinks over any number of increments if and only if the initial one does not exceed the maximum. |
| Interval.GrowsByOne | backoff/backoff.go:116-124 | If the first increment gains a unit, every increment before saturation strictly grows the interval, by n units after n increments. |
| Interval.ReachesMaximumIff | backoff/backoff.go:116-124 | The maximum is reached at all if and only if the first increment gains at least one unit or saturates at once. |
| Interval.StuckInterval | backoff/backoff.go:116-124 | With the default multiplier an interval of one unit never grows. |
| Jitter.DefaultFactorIsUnfair | backoff/backoff.go:126-141 | With the default factor no odd interval is drawn from fairly; around 1 the shares of 0, 1 and 2 are 1/4, 1/2 and 1/4. |
| Policies.Flattening | backoff/backoff.go:23-49 | Any non-empty stack of max-tries decorators over any delegate hands out, over any history of NextBackOff and Reset calls, the delays of one decorator with the smallest limit; the delegate ends in the same state, no counter passes its limit, and the context is the same. |
| Policies.StackContext | backoff/backoff.go:197-205 | A stack of decorators of any height resolves to the context that the policy underneath carries, or to the background. |
| Interval.IncrementIsCapped | backoff/backoff.go:116-124 | For any positive multiplier the next interval is the product, rounded down, or the maximum if the product reaches it. |
| Calls.NthCall | backoff/backoff.go:143-157 | After a reset, and below every limit of any decorators, call n draws around the initial interval incremented n times, and hands that delay out unless the retry would fall due after the budget, counted from the reset. |
| Calls.DecoratedCall | backoff/backoff.go:33-49 | Any stack of decorators over any policy, in whatever state it was reset, hands out that policy's own delays up to the smallest limit, and then says stop without asking it. |
| Calls.DefaultDelaysGrow | backoff/backoff.go:71-77 | Drawn from the middle, the first default delays are 0.5, 0.75 and 1.125 seconds. |
| Budget.RunningStep | backoff/backoff.go:143-152 | Under any decorators, a granted delay is at least the least delay of the configuration and falls due within the budget; anything else is a stop. |
| Budget.StopsIffOverdue | backoff/backoff.go:143-152 | The undecorated generator stops exactly when there is a budget and the retry would fall due after it. |
| Budget.TimeBudget | backoff/backoff.go:112-157 | With a positive budget, over any run since a reset and any clock that advances by the sleeps, granted sleeps sum to at most the budget, each granted retry falls due within it, and their number times the least delay fits into it. |
| Budget.StopsWithinBudget | backoff/backoff.go:112-157 | With a positive least delay, one of the first budget/least+1 calls says stop, without any decorator. |
| Budget.NeverStops | backoff/backoff.go:61-64 | Without a budget, or with a configured stop value other than the constant the loop looks for, the undecorated generator never stops the loop. |
| Budget.StopsIffBudget | backoff/backoff.go:143-152 | On any clock that advances, with a positive least delay, the undecorated generator stops the loop some time if and only if there is a budget, be it negative, and the configured stop value is the loop's constant. |
| Budget.DefaultBudget | backoff/backoff.go:71-77 | The default configuration grants at most 3600 sleeps and 15 minutes. |
| BackOffObjects.ExponentialBackOff.IncrementCurrentInterval | backoff/backoff.go:116-124 | Replaces the current interval by the next one of the model and leaves the start time. |
| BackOffObjects.ExponentialBackOff.NextBackOff | backoff/backoff.go:143-152 | Returns the delay and leaves the state that the policy function gives for this clock reading and draw. |
| BackOffObjects.ExponentialBackOff.Reset | backoff/backoff.go:154-157 | Restores the initial interval and restarts the clock. |
| BackOffObjects.ExponentialBackOff.constructor | backoff/backoff.go:89-104 | A new generator is in the state after a reset. |
| BackOffObjects.BackOffTries.constructor | backoff/backoff.go:23-25 | WithMaxRetries wraps the given policy with a counter at zero and shares its state. |
| BackOffObjects.BackOffTries.NextBackOff | backoff/backoff.go:33-44 | Through any nesting of mutable decorators, one call changes the whole policy and returns what the policy function says. |
| BackOffObjects.BackOffTries.Reset | backoff/backoff.go:46-49 | A reset reaches every decorator and the generator underneath. |
| BackOffObjects.ResolveContext | backoff/backoff.go:197-205 | Finds the context of the policy through its decorators and changes nothing. |
| Retry.FindsOutermost | backoff/backoff.go:292-295 | In a tree of wrapped errors of any shape a permanent error is found exactly if one occurs anywhere, and the one found comes before every other, from the outside in and from left to right. |
| Retry.DoRetryNotify | backoff/backoff.go:269-317 | The attempt that ends the loop is the first that decides; the result is its value and the error it dictates; the operation runs at least once; notifications and timers are those of exactly the failed attempts before it, in order, with their own errors and delays, and one more if the context cut off the last sleep; the policy has been asked once per retriable failure. |
| Retry.DecidedBy | backoff/backoff.go:285-316 | From the attempt, the delay and the context alone: when another attempt follows; and of the deciding attempt which error is returned -- none, the payload of the first permanent error in the tree, the context's, or its own -- how many sleeps were started and how often the policy was asked. |
| Retry.FirstDecidingIsUnique | backoff/backoff.go:285-316 | At most one attempt can be the first deciding one, so the result is determined. |
| Retry.NilResultIff | backoff/backoff.go:288-303 | The error is nil if and only if the deciding attempt succeeded or carried a permanent error with nothing inside. |
| Retry.NilResultHappens | backoff/backoff.go:292-295 | A failed attempt whose permanent error has nothing inside decides, and the error returned is nil. |
| Retry.TimersWithinBudget | backoff/backoff.go:285-316 | Under a positive budget the timers that the loop starts are non-negative and sum to at most the budget, and their number times the least delay fits into it. |
| Retry.RetryWithinBudget | backoff/backoff.go:236-268 | A whole retry under a positive budget, decorated or not, makes at most budget/least+1 attempts, sleeps for at most the budget and returns what the first deciding attempt dictates. |
| Retry.SmallestLimitDecides | backoff/backoff.go:33-49 | Under any stack of decorators the operation runs at most smallest limit + 1 times, whatever it returns. |
| Retry.BudgetDecides | backoff/backoff.go:148-150 | Under a positive time budget some attempt among the first budget/least+1 decides, with or without decorators. |
| ByteOrder.LessTrichotomy | rcn/conn/conn.go:70 | Of two different strings exactly one is less than the other, for strings of any length. |
| ByteOrder.LessTransitive | rcn/conn/conn.go:70 | The string order is transitive. |
| ByteOrder.LessIffFirstDifference | rcn/conn/conn.go:70 | The order is decided at the first position where the strings differ, a proper prefix being smaller. |
| Handshake.HandshakeAgreement | rcn/webrtc/ice.go:387-473 | In every reachable state of a mesh, under any interleaving and loss, whatever a peer works or connects with are the credentials of the agent at the other end; it dials if and only if its own public key is the smaller; if both ends connect, one dials and the other accepts, if and only if their public keys differ. |
| Handshake.TakenOrDropped | rcn/webrtc/ice.go:457-473 | A message that arrives leaves the network; exactly an Ice that waits in its select takes it, and any other drops it. |
| Handshake.SafeStep | rcn/webrtc/ice.go:387-473 | Every step keeps all credentials in use and in flight genuine, all roles right and every entry under its own key. |
| Handshake.ActionStaysOnItsLink | rcn/controlplane/control_plane.go:131-178 | No step changes the Ice of another link, or the identity of its own. |
| Completion.HandshakeCanComplete | rcn/webrtc/ice.go:316-419 | From every initial mesh some run leaves both ends of a given link connected with each other's credentials, waiting again, with nothing in flight. |
| Projection.ActionProjects | rcn/controlplane/control_plane.go:131-178 | Seen from any subset of the nodes, one action of the mesh is one enabled action of theirs with the same effect, or changes nothing. |
| Projection.RunProjects | rcn/controlplane/control_plane.go:131-178 | A run of the mesh, seen from any subset of the nodes, is a run of the protocol among them that ends in the restriction of the mesh's state. |
| Traffic.Conservation | rcn/webrtc/ice.go:316-473 | In every reachable state every start, offer and answer is accounted for: pending, made, in flight, accepted or dropped. |
| Traffic.FiniteSignalling | rcn/webrtc/ice.go:316-473 | Over any run answers sent <= offers accepted <= offers sent <= gathering starts <= number of links. |
| Traffic.PotentialStep | rcn/webrtc/ice.go:387-473 | A measure on the mesh strictly decreases at every action but a start, deliveries and losses included. |
| Traffic.RunsAreBounded | rcn/webrtc/ice.go:316-473 | Every run has at most twelve actions per gathering process started, hence a bound given by the number of links. |
| Traffic.PairTrafficIsBounded | rcn/webrtc/ice.go:316-473 | In a mesh of any size at most 24 actions of a run ever concern a given pair of nodes. |
| IceObjects.Conn.Start | rcn/conn/conn.go:68-95 | Dials exactly if the own key is smaller, accepts otherwise, and starts the proxy only over a link that came up. |
| IceObjects.Ice.StartGatheringProcess | rcn/webrtc/ice.go:315-328 | Spawns the receive loop, not yet in its select, and sends at most one offer with the local credentials. |
| IceObjects.Ice.Setup | rcn/webrtc/ice.go:140-203 | The agent exists afterwards unless the setup failed before creating it. |
| IceObjects.Ice.SignalOffer | rcn/webrtc/ice.go:440-455 | Sends the agent's local credentials to the remote node key, if the call reaches the network. |
| IceObjects.Ice.SignalAnswer | rcn/webrtc/ice.go:421-438 | Sends the agent's local credentials as an answer; a failure ends the loop. |
| IceObjects.Ice.SendRemoteOfferCh | rcn/webrtc/ice.go:457-464 | The offer is taken exactly if the loop waits in its select, and is dropped otherwise. |
| IceObjects.Ice.SendRemoteAnswerCh | rcn/webrtc/ice.go:466-473 | The answer is taken exactly if the loop waits in its select, and is dropped otherwise. |
| IceObjects.Ice.StartConn | rcn/webrtc/ice.go:330-347 | Replaces the connection by a new one for the received credentials and starts it in the role the keys decide. |
| IceObjects.Ice.WaitingRemotePeerConnections | rcn/webrtc/ice.go:387-419 | The spawned loop enters its select and, over any sequence of messages taken and outcomes of the calls, ends in the state of the protocol's steps, having sent exactly the protocol's answers. |
| IceObjects.Ice.Gather | rcn/webrtc/ice.go:315-419 | A gathering process from its start on: the offer, then the loop; its final state and all that it sends. |
| ReceiveLoop.LoopOutcome | rcn/webrtc/ice.go:387-419 | For any turns: the loop still waits if and only if all calls of all turns went well, and has ended otherwise; it has answered exactly the offers up to the first failure, and holds the latest connection made up to there, with its credentials, its role by the keys, and whether it came up. |
| ReceiveLoop.GatherOutcome | rcn/webrtc/ice.go:315-419 | The same from the start of the gathering process on. |
| ReceiveLoop.TakenMeaning | rcn/webrtc/ice.go:387-419 | The turns up to the first failure are all turns but those after the first in which a call failed. |
| IceObjects.LoopAnswersOffers | rcn/webrtc/ice.go:387-438 | The loop sends at most one answer per offer taken, each with the local credentials, and any new connection comes from a message it took. |
| IceObjects.PassRefinesProtocol | rcn/webrtc/ice.go:389-418 | One pass of the loop for a message in flight is a run of the mesh's state machine: it takes the message, adds the answer, does to the Ice what the code does and touches no other. |
| GatheringRuns.GatherIsRun | rcn/webrtc/ice.go:315-419 | The final state of an Ice after its start and its loop, and all that it has sent, in order, are those of a run of the mesh that starts it, makes its passes, and lets the other links do anything in between. |
| ConnState.ChannelHistory | rcn/conn/status.go:57-78 | In every reachable state each channel ever handed out is the single current one and open, or was closed exactly once, by the first Connected step after its creation. |
| ConnState.WaiterGuarantee | client/grpc/signal_client.go:174-185 | A waiter is blocked exactly while no Connected step has occurred since it subscribed, and has returned, or goes on to the initial offer, only if some Connected step has occurred. |
| ConnState.CheckIff | client/grpc/signal_client.go:174-179 | A waiter returns at its check if and only if some Connected step has come and no DisConnected step after it; otherwise it can subscribe and is then blocked. |
| ConnState.ConnectedUnblocks | rcn/conn/status.go:68-78 | A Connected step, that of a status query included, unblocks every waiter subscribed before it. |
| ConnState.MissedWakeupIff | client/grpc/signal_client.go:176-184 | In a connected state a waiter is blocked if and only if the last Connected step fell between its check and its subscription. |
| ConnState.MissedWakeupHappens | client/grpc/signal_client.go:176-184 | A run in which the state is connected and a waiter is blocked. |
| ConnState.QueryAnswerIff | client/grpc/signal_client.go:210-214 | Over any run, a status query that has answered has performed its own Connected step and later read the status; it answers "disconnect" if and only if, between the two, a DisConnected step came last of the steps that set the status. |
| ConnState.QueryAnswersDisConnect | client/grpc/signal_client.go:210-214 | A run in which a query answers "disconnect". |
| ConnState.ConnectState.GetConnChan | rcn/conn/status.go:57-66 | Hands out the current open channel, creating it if there is none. |
| ConnState.ConnectState.Connected | rcn/conn/status.go:68-78 | Marks the state connected, closes the current channel, which is open, and forgets it. |
| ConnState.ConnectState.DisConnected | rcn/conn/status.go:80-85 | Changes the status only. |
| ConnState.ConnectState.QueryStatus | client/grpc/signal_client.go:210-214 | For any critical sections of other goroutines between its two: performs a Connected step, then reads; the answer is "disconnect" exactly if they disconnect last. |
| ControlPlane.ControlPlane.NewIce | rcn/controlplane/control_plane.go:263-300 | Fails exactly if one of the two configured keys does not parse; otherwise the new Ice carries the keys of the listed node. |
| ControlPlane.ControlPlane.OfferOnce | rcn/controlplane/control_plane.go:203-224 | One attempt succeeds if and only if the server answered and its list is nil, empty, or the configured keys parse. It then registers and announces one distinct new Ice per entry, in order and with that node's keys; otherwise it leaves everything as it was. |
| ControlPlane.RegisterMeaning | rcn/controlplane/control_plane.go:213-221 | After registration every listed node is in the map with the Ice of its last entry, and the entries of other keys are as before. |
| ControlPlane.RetryOffers | rcn/controlplane/control_plane.go:201-230 | At most four attempts are made, all but the last failed, and the result is that of the last; the last one succeeded, was the fourth, or left no room in the budget. |
| ControlPlane.ControlPlane.InitialOfferToRemotePeer | rcn/controlplane/control_plane.go:201-230 | Over any sequence of server responses: attempts go on up to the first that succeeds, the fourth, or the first after which a retry would be overdue; the error is that of the last response. Registration is all or nothing, with the map's keys kept right; a failed call registers and announces nothing. |
| ControlPlane.AttemptMeaning | rcn/controlplane/control_plane.go:203-224 | When an attempt succeeds, and with which error it fails. |
| ControlPlane.NewIcesAreInitial | rcn/controlplane/control_plane.go:263-300 | The Ices that all nodes make for each other from truthful lists are an initial state of the protocol, with the right keys and agents. |
| ControlPlane.HandledMeaning | rcn/controlplane/control_plane.go:307-331 | On the fields: the loop is spawned exactly for a registered node of a ready client after a complete setup, one offer with the local credentials is then sent if the call gets through, and the agent exists exactly if the setup came so far. |
| ControlPlane.ControlPlane.WaitForRemoteConn | rcn/controlplane/control_plane.go:307-331 | For any changes of the peer map between arrivals: each announced Ice starts its gathering process exactly if, when it arrives, the client is ready, its node is registered and its setup succeeds. It gets an agent exactly if the setup comes so far, and is otherwise untouched. |
| ControlPlane.ControlPlane.ReceiveSignalRequest | rcn/controlplane/control_plane.go:131-178 | A handshake message is received by the Ice of its key and by no other. |
| ControlPlane.ControlPlane.SyncRemotePeerConfig | rcn/controlplane/control_plane.go:232-261 | For every map, list and order of traversal: it completes if and only if every unlisted Ice has an agent. Then exactly the entries of listed keys remain, with the same Ices, and each removed Ice is cleaned up exactly once. No other Ice is touched in any case. |
| ControlPlane.ControlPlane.SyncRemoteNodes | rcn/controlplane/control_plane.go:335-350 | Over any responses: it follows each list until the call fails or an Ice without an agent is dropped; unless it panics, the Ices dropped by then have each been cleaned up exactly once over the whole loop, the others not at all. |
| ControlPlane.FollowedMeaning | rcn/controlplane/control_plane.go:335-350 | An entry survives any number of rounds if and only if no list that is not nil omitted it, and is then unchanged. |
| ControlPlane.ListAgain | rcn/controlplane/control_plane.go:335-350 | A list that has been followed before, however long ago, drops nothing. |
| ControlPlane.UnpreparedIcePanics | rcn/controlplane/control_plane.go:249-256 | A registered node whose Ice could not be set up and that a later list omits makes the sync panic. |
| ControlPlane.SyncIsIdempotent | rcn/controlplane/control_plane.go:232-261 | Syncing with the same list again changes nothing. |
| KeyHex.RoundTrip | types/key/key.go:28-53 | Every byte string and prefix is parsed back from its text. |
| KeyHex.ParsesExactlyHex | types/key/key.go:35-53 | Parsing succeeds on exactly the prefix followed by twice-the-size hexadecimal digits of either case, and re-encoding gives the text back with its digits in lower case. |
| KeyHex.DigitValue | types/key/key.go:15-26 | A character is read exactly if its lower-case form is one of the sixteen digits, as the place of that digit. |
| KeyHex.TextOfKey | types/key/key.go:28-33 | After the prefix, the text has for each byte its high digit and then its low one. |
| KeyHex.ParseFailures | types/key/key.go:35-53 | Which of prefix, size and first bad pair makes a text fail, and that the bytes decoded by then are those of the digits before it. |
| KeyHex.ToHexBuffer | types/key/key.go:28-33 | Fills a new buffer with the prefix and the digits. |
| KeyHex.ParseHexInto | types/key/key.go:35-53 | Reports success exactly for texts that parse and then holds the key; on a bad character the bytes before it have been overwritten, on a wrong prefix or size none. |
| AtomicFile.AtomicAtEveryStep | utils/file.go:14-47 | Whatever system call fails, between any two of them the target is as it was or complete and synced, and no other file but the temporary one is touched; the write takes effect exactly if none failed. |
| AtomicFile.FileSystem.AtomicWriteFile | utils/file.go:14-47 | Passes through exactly the disk states of the model for these faults, and succeeds exactly if no call failed. |
| FileStore.InStepAfterIff | store/file.go:69-83 | After a successful WriteState the file holds the cache if and only if something was written or it held it before; after a failed one it holds the old cache and not the new. |
| FileStore.WriteOutcome | store/file.go:69-83 | A call succeeds if and only if a read would give the same bytes, a missing key counting as empty, or no system call fails; what a read gives afterwards, and when the file is replaced, and by what. |
| FileStore.ReadsLastWritten | store/file.go:69-95 | Over any run, with failed writes or not, a read gives the bytes last written to its key; a write of nothing does not create one. |
| FileStore.RepeatedWriteIsSkipped | store/file.go:73-75 | After a failed write the same write succeeds, writes nothing and leaves the file behind. |
| FileStore.CacheAgreesWithDisk | store/file.go:69-83 | In every run without a failed write the file decodes to the cache after each call. |
| FileStore.FileHoldsEarlierCache | store/file.go:69-83 | With failed writes the file always decodes to the cache of some moment of the run. |
| FileStore.OpenedInStep | store/file.go:37-67 | A store that has just been opened agrees with its file. |
| FileStore.RestartReadsTheSame | store/file.go:37-95 | A fresh store on the file of a run without a failed write has the old cache, and so answers every read alike. |
| FileStore.FileStore.WriteState | store/file.go:69-83 | Changes cache and disk as the model says and reports success exactly if the write was skipped or no system call failed. |
| FileStore.FileStore.ReadState | store/file.go:85-95 | Returns the cached bytes, or not found. |
| FileStore.NewFileStore | store/file.go:37-67 | Creates an empty state file if there is none, else decodes the file; fails exactly where the model does. |
| CodecWitness.WriteIsLost | store/file.go:69-83 | On a concrete store: a write fails, its repetition succeeds on a healthy disk, and a restart finds nothing. |
| CodecWitness.LawfulCodecExists | store/file.go:62-82 | The laws assumed of the JSON codec can be met. |
| Identity.StateFileIsNeverTorn | utils/file.go:14-47 | For any codec and over any history of starts, failures and crashes after any system call, the state file is absent, or synced and either the empty object or the encoding of some cache. |
| Identity.StateFileStaysWhole | utils/file.go:14-47 | A state file that decodes at first, whoever wrote it, always decodes. |
| Identity.IdentitySurvives | store/client.go:40-71 | Once a start has ended with a key, every later start that can read its file ends with the same key, whatever fails or crashes in between. |
| Identity.StartEndsWithKeyIff | store/client.go:40-71 | Exactly when a start ends with a key, and with which; in particular a first start on which nothing fails ends with its new key. |
| Identity.StartOnHeldKey | store/client.go:40-47 | A start on a disk that holds a key writes nothing and reads that key. |
| Identity.ResultIsHeld | store/client.go:49-71 | A start that ends with a key leaves a file that durably holds it. |
| Identity.ClientStore.WritePrivateKey | store/client.go:39-71 | Reads the stored key into the buffer, or writes a new one and keeps it, or leaves the buffer alone if it cannot; the disk passes through exactly the states of the model. |
| Identity.ClientStore.GetPrivateKey | store/client.go:85-95 | Returns the stored key if it parses, nothing if it does not, and the key in memory if none is stored. |
| Identity.StartClient | conf/conf.go:36-50 | A whole start on the objects passes through the disk states of the model and ends with the model's key. |
| Spec.MergeOverHistory | conf/spec.go:58-148 | Over any sequence of starts that replace the file, without a file at first, key, tunnel and blacklist remain those of the first start, each host is the last non-empty one supplied and each port the last one. |
| Spec.MergeSurvivesCrashes | conf/spec.go:58-148 | Over any history of starts, panics and crashes after any system call, without a file at first, the file is what the starts that replaced it have made of it; of the starts that were not cut off, these are exactly the ones that returned. |
| Spec.FileFollowsRuns | conf/spec.go:58-148 | The same for a file that was there before, and the file is always synced. |
| Spec.HealthyHistory | conf/spec.go:91-148 | Over any history of starts in which nothing fails every start replaces the file, with or without one at first: it ends with the last ports and with hosts merged from all of them. |
| Spec.Launch | conf/spec.go:91-148 | A start on the objects passes through exactly the disk states of the model. |
| Spec.MergeOverExistingFile | conf/spec.go:114-147 | With a file at first, whatever its bytes decode to takes the part of the first start, for good. |
| CodecWitness.KeyIsLost | conf/spec.go:114-147 | On a concrete codec and file: a stored key, one byte too many, and the next start drops the key. |
| CodecWitness.LawfulSpecCodecExists | conf/spec.go:58-89 | The law assumed of the configuration codec can be met. |
| Spec.LastNonEmptyMeaning | conf/spec.go:123-135 | The kept host is empty only if none was ever supplied; otherwise it was supplied, and only empty ones after it. |
| Spec.Spec.WriteSpec | conf/spec.go:58-89 | Takes over its arguments but the preshared key, and replaces the file by their encoding. |
| Spec.Spec.CreateSpec | conf/spec.go:91-148 | Creates or merges as the history says and leaves the file complete, passing through the disk states of the model; it panics exactly if the file cannot be read, no key can be generated or a system call of the write fails, and then leaves the file as it was. |

## Left out

- ICE agents, UDP muxes, candidates and their dispatch, WireGuard devices and the proxy's choice of path: foreign libraries.
- The gRPC transport, the receive loop of `SignalClient.Connect`, login, the unix socket, daemon installation, flags, logging and paths: plumbing around the modelled parts.
- What `Ice.Setup` and `closeIceAgent` allocate and release, and the errors of `Cleanup`, which its caller ignores: nearly all foreign calls; the model keeps whether the agent exists, and counts the clean-ups.
- A typed nil `*PermanentError`, on which the loop itself would panic.
- What other goroutines do to an Ice between its arrival and the end of `WaitForRemoteConn`: the mesh of `Handshake` covers that interleaving.
- Closing the shared root channel: several goroutines may close it, and nothing is claimed about that.
- `ConnectState.UpdateState`: it has no callers.
- That a handshake does complete: both offers can be lost and nothing resends them. What is proved is that it can.
- A node listed twice in one response: `ControlPlane` registers the last entry, but the mesh of `Handshake` has one Ice per link, so the offer of the replaced Ice is not in it.
- IEEE rounding, NaN and infinities as configuration values, and the wrap-around of 64-bit durations beyond 292 years: real and integer arithmetic stands for them.
- Key generation and the public key: an arbitrary choice, and a derivation that is not part of this model; `PrivateKey` is given as bytes, not in base64.
- Several processes on one state file, and file systems that undo a completed rename after a crash.
- `buildHost`, `shouldUseProxy`, `IsPublicIP` and port parsing: a few branches each.
- ControlPlane.ControlPlane.InitialOfferToRemotePeer: the attempts act on the map after the retry loop has decided how many there are, which is the same because an attempt's error does not depend on the map.
