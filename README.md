# Nextwin Unity client — a verified model of its core

This project models the core of the Nextwin Unity game client in Dafny. It covers the
message path from the socket to the game and a few pieces of bookkeeping around it:

- **Envelope and codec** (modules `Protocol`, `Formatter`, `MsgPackFormat`, `MsgPackIO`).
  - Every message is a `SerializableData` carrying one tag, `MsgType`. The constructor keeps the argument only when it lies in 0..255; any other value leaves the tag at 0.
  - The generated MessagePack formatter writes null as nil (`0xc0`). It writes any other envelope as a one-element array holding the tag.
  - Reading accepts arrays of any length. Element 0 is the tag and later elements are skipped. Objects deeper than the security limit are refused.
  - The writer and reader work over byte sequences and cover the subset of the MessagePack format this path uses: nil, the array family, the int family, and `Skip` over the whole format.
  - The frame dispatcher does not decode: it reads the tag straight from byte 1 of the frame. The model proves this is right only for tags 0..127 (and, by coincidence, 204). Every tag 128..255 reads back as 204, the `uint8` marker `0xcc`.
- **Receive and dispatch** (modules `Network`, `Game`).
  - A worker loop takes frames off the connection and appends them, unchanged, to a service queue.
  - On every frame of the game loop, the game manager does nothing while disconnected. Otherwise it creates the worker once and hands at most one queued frame, with its tag, to `OnReceivedData`.
  - The concurrent queue is a sequence used by both sides, one step at a time. Its ghost histories give first-in first-out order, so dispatch order equals enqueue order.
- **Serializer registration** (module `Registration`). It runs once per process.
  - It installs the resolver chain Standard, Generated, Unity, UnityBlitWithPrimitiveArray and points the default options at it.
  - It counts as done only when a serialize/deserialize self-test passes. The self-test uses tag 59114, which is out of range, so it compares 0 with 0 and passes whenever the depth limit allows one level.
- **UI registry** (module `UI`). Frames and dialogs found in the scene are filed by ID. When an ID repeats, the first UI found keeps it. Each UI filed is hidden once. Lookups return the UI or null once `Start` has run; before it both registries are null and a lookup fails.
- **Collision relay** (module `Collision`). Each of the six physics callbacks has its own list of handlers. Handlers are added at the end of the list and invoked in order with the other collider.
- **Player controller** (module `Player`).
  - It models the state flags: moving, jumping, fallen, waking up, on the ground. It also models the walk/run speed choice, the destination and facing bookkeeping of the direction keys, the fall-down test on the body's angles, getting up, and ground contact by tag or by layer.
  - The class invariant `Valid` says that while getting up, the character is still fallen, has no move or jump pending, and is kinematic.
- **mpc command line and platform selection** (module `MpcWindow`). `MpcArgument.ToString` writes `-i … -o …` and then the optional switches `-c`, `-r`, `-m`, `-n`, `-ms`. `CheckAndSetOS` picks the dotnet and mpc executables from the platform name.

Most exceptions of the original become `Err`/`Fail` values of `Result` and `Outcome` (module `Wrappers`), and C# `null` is `Option.None` or a nullable class reference. Three cases differ:

- `ReadMsgTypeFromBytes` on a frame shorter than two bytes throws at `bytes[1]`; the model gives `Option.None`. `CheckServiceQueue` then drops the frame it has already dequeued and calls no handler, where the original's exception leaves `Update`. Either way the frame is gone and no handler runs.
- `GetFrame` and `GetDialog` before `Start` throw on the null registry; the model returns `Err(RegistryNotBuilt)`.
- A `Receive` that would block is not turned into a value: the `requires` of `Network.NetworkManager.Receive` excludes it.

The ID types of the UI registry and the handler and collider types of the collision relay are type parameters.

## Model

| member | source | states |
|---|---|---|
| Protocol.ConstructedMsgType | Assets/Scripts/Nextwin.Client/Protocol/SerializableData.cs:15-23 | the tag a constructed envelope holds is always in 0..255: the argument when it is valid, otherwise the default 0 |
| Protocol.ValidMsgTypeRange | Assets/Scripts/Nextwin.Client/Protocol/SerializableData.cs:30-38 | a tag is valid exactly when it lies in 0..255 |
| Protocol.SerializableData.constructor | Assets/Scripts/Nextwin.Client/Protocol/SerializableData.cs:15-23 | the new envelope's tag is ConstructedMsgType of the argument; an out-of-range tag does not fail |
| Protocol.ReadMsgTypeFromBytes | Assets/Scripts/Nextwin.Client/Protocol/SerializableData.cs:25-28 | there is a result exactly when the frame has at least two bytes; it is byte 1, so it lies in 0..255 |
| MsgPackFormat.FromBigEndianOf | Assets/Scripts/Generated/MessagePackGenerated/MessagePack_Formatters_Nextwin_Client_Protocol_SerializableDataFormatter.cs:35 | reading back the n-byte big-endian form of a value gives the value |
| MsgPackFormat.ArrayHeaderBytes | Assets/Scripts/Generated/MessagePackGenerated/MessagePack_Formatters_Nextwin_Client_Protocol_SerializableDataFormatter.cs:34 | an array header takes one to five bytes |
| MsgPackFormat.IntBytes | Assets/Scripts/Generated/MessagePackGenerated/MessagePack_Formatters_Nextwin_Client_Protocol_SerializableDataFormatter.cs:35 | an int is written in one to five bytes |
| MsgPackFormat.ParseInt32 | Assets/Scripts/Generated/MessagePackGenerated/MessagePack_Formatters_Nextwin_Client_Protocol_SerializableDataFormatter.cs:54 | a successful int read consumes at least one byte and stays inside the input |
| MsgPackFormat.ParseArrayHeader | Assets/Scripts/Generated/MessagePackGenerated/MessagePack_Formatters_Nextwin_Client_Protocol_SerializableDataFormatter.cs:46 | a successful header read consumes at least one byte and yields a count that fits an int |
| MsgPackFormat.HeadAt | Assets/Scripts/Generated/MessagePackGenerated/MessagePack_Formatters_Nextwin_Client_Protocol_SerializableDataFormatter.cs:57 | the header of any object Skip recognizes is at least one byte and lies inside the input |
| MsgPackFormat.SkipObject | Assets/Scripts/Generated/MessagePackGenerated/MessagePack_Formatters_Nextwin_Client_Protocol_SerializableDataFormatter.cs:57 | a successful Skip moves strictly forward and stays inside the input |
| MsgPackFormat.SkipObjects | Assets/Scripts/Generated/MessagePackGenerated/MessagePack_Formatters_Nextwin_Client_Protocol_SerializableDataFormatter.cs:56-58 | skipping n objects never moves back, and moves forward when n is positive |
| MsgPackFormat.ParseIntBytes | Assets/Scripts/Generated/MessagePackGenerated/MessagePack_Formatters_Nextwin_Client_Protocol_SerializableDataFormatter.cs:54 | ReadInt32 on what Write(int) wrote returns that int and ends right after it, for every int |
| MsgPackFormat.ParseArrayHeaderBytes | Assets/Scripts/Generated/MessagePackGenerated/MessagePack_Formatters_Nextwin_Client_Protocol_SerializableDataFormatter.cs:46 | ReadArrayHeader on what WriteArrayHeader wrote returns the count and ends right after the header |
| MsgPackFormat.SkipEncoded | Assets/Scripts/Generated/MessagePackGenerated/MessagePack_Formatters_Nextwin_Client_Protocol_SerializableDataFormatter.cs:57 | Skip passes over exactly one encoded value, however deeply its arrays nest |
| MsgPackFormat.SkipEncodedArray | Assets/Scripts/Generated/MessagePackGenerated/MessagePack_Formatters_Nextwin_Client_Protocol_SerializableDataFormatter.cs:57 | Skip passes over exactly one encoded array, header and items |
| MsgPackFormat.SkipEncodedAll | Assets/Scripts/Generated/MessagePackGenerated/MessagePack_Formatters_Nextwin_Client_Protocol_SerializableDataFormatter.cs:56-58 | skipping as many objects as a list of encoded values holds ends right after the list |
| MsgPackIO.Writer.constructor | Assets/Scripts/Generated/MessagePackGenerated/MessagePack_Formatters_Nextwin_Client_Protocol_SerializableDataFormatter.cs:26 | a new writer has written nothing |
| MsgPackIO.Writer.WriteNil | Assets/Scripts/Generated/MessagePackGenerated/MessagePack_Formatters_Nextwin_Client_Protocol_SerializableDataFormatter.cs:30 | appends the nil byte to the output |
| MsgPackIO.Writer.WriteArrayHeader | Assets/Scripts/Generated/MessagePackGenerated/MessagePack_Formatters_Nextwin_Client_Protocol_SerializableDataFormatter.cs:34 | appends the shortest array header for the count |
| MsgPackIO.Writer.Write | Assets/Scripts/Generated/MessagePackGenerated/MessagePack_Formatters_Nextwin_Client_Protocol_SerializableDataFormatter.cs:35 | appends the shortest int-family encoding of the value |
| MsgPackIO.Reader.constructor | Assets/Scripts/Generated/MessagePackGenerated/MessagePack_Formatters_Nextwin_Client_Protocol_SerializableDataFormatter.cs:38 | a new reader is at position 0 and depth 0 |
| MsgPackIO.Reader.TryReadNil | Assets/Scripts/Generated/MessagePackGenerated/MessagePack_Formatters_Nextwin_Client_Protocol_SerializableDataFormatter.cs:40 | fails at the end of the input; otherwise says whether the next byte is nil and consumes it only then |
| MsgPackIO.Reader.ReadArrayHeader | Assets/Scripts/Generated/MessagePackGenerated/MessagePack_Formatters_Nextwin_Client_Protocol_SerializableDataFormatter.cs:46 | returns ParseArrayHeader's count and moves to its end, or passes on its error without moving |
| MsgPackIO.Reader.ReadInt32 | Assets/Scripts/Generated/MessagePackGenerated/MessagePack_Formatters_Nextwin_Client_Protocol_SerializableDataFormatter.cs:54 | returns ParseInt32's value and moves to its end, or passes on its error without moving |
| MsgPackIO.Reader.Skip | Assets/Scripts/Generated/MessagePackGenerated/MessagePack_Formatters_Nextwin_Client_Protocol_SerializableDataFormatter.cs:57 | moves to SkipObject's end, or passes on its error without moving |
| MsgPackIO.DepthStep | Assets/Scripts/Generated/MessagePackGenerated/MessagePack_Formatters_Nextwin_Client_Protocol_SerializableDataFormatter.cs:45 | at or beyond the limit it fails and leaves the depth unchanged; below it the depth goes up by one |
| Formatter.ReadFields | Assets/Scripts/Generated/MessagePackGenerated/MessagePack_Formatters_Nextwin_Client_Protocol_SerializableDataFormatter.cs:49-60 | the element loop never moves the reader back and stays inside the input |
| Formatter.ReadTag | Assets/Scripts/Generated/MessagePackGenerated/MessagePack_Formatters_Nextwin_Client_Protocol_SerializableDataFormatter.cs:47-60 | reading the tag and skipping the rest never moves back and stays inside the input |
| Formatter.DecodeEnvelope | Assets/Scripts/Generated/MessagePackGenerated/MessagePack_Formatters_Nextwin_Client_Protocol_SerializableDataFormatter.cs:38-66 | a successful decode consumes at least one byte and leaves the depth as it was on entry: the depth step and `Depth--` cancel |
| Formatter.Serialize | Assets/Scripts/Generated/MessagePackGenerated/MessagePack_Formatters_Nextwin_Client_Protocol_SerializableDataFormatter.cs:26-36 | appends exactly the envelope encoding: nil for null, otherwise the one-element array header and the tag |
| Formatter.Deserialize | Assets/Scripts/Generated/MessagePackGenerated/MessagePack_Formatters_Nextwin_Client_Protocol_SerializableDataFormatter.cs:38-66 | returns null for nil, or a fresh envelope with the decoded tag, and leaves the reader where DecodeEnvelope ends; otherwise it passes on the error |
| Formatter.ReadElements | Assets/Scripts/Generated/MessagePackGenerated/MessagePack_Formatters_Nextwin_Client_Protocol_SerializableDataFormatter.cs:49-60 | the for/switch loop computes ReadFields: element 0 is read as the tag and every other element is skipped |
| Formatter.NilRoundTrip | Assets/Scripts/Generated/MessagePackGenerated/MessagePack_Formatters_Nextwin_Client_Protocol_SerializableDataFormatter.cs:28-43 | null is written as one nil byte and read back as null, without touching the depth |
| Formatter.ReadFieldsSkipsRest | Assets/Scripts/Generated/MessagePackGenerated/MessagePack_Formatters_Nextwin_Client_Protocol_SerializableDataFormatter.cs:56-58 | after element 0 the loop keeps the tag it has and only skips elements |
| Formatter.ReadFieldsIsReadTag | Assets/Scripts/Generated/MessagePackGenerated/MessagePack_Formatters_Nextwin_Client_Protocol_SerializableDataFormatter.cs:49-60 | the loop equals ReadTag on every input: the tag from element 0, the rest skipped, 0 for an empty array |
| Formatter.DecodeWithExtraFields | Assets/Scripts/Generated/MessagePackGenerated/MessagePack_Formatters_Nextwin_Client_Protocol_SerializableDataFormatter.cs:49-60 | an array whose element 0 is the tag and whose later elements are any encodable values decodes to that tag and ends after the last element |
| Formatter.RoundTrip | Assets/Scripts/Generated/MessagePackGenerated/MessagePack_Formatters_Nextwin_Client_Protocol_SerializableDataFormatter.cs:26-66 | decoding what Serialize wrote gives back null or the same tag, for every int tag, ending right after the encoding with the depth unchanged |
| Formatter.DepthLimitRefuses | Assets/Scripts/Generated/MessagePackGenerated/MessagePack_Formatters_Nextwin_Client_Protocol_SerializableDataFormatter.cs:45 | at the depth limit a non-null envelope is refused |
| Formatter.EmptyArrayDecodesToZero | Assets/Scripts/Generated/MessagePackGenerated/MessagePack_Formatters_Nextwin_Client_Protocol_SerializableDataFormatter.cs:47-63 | an empty array decodes to an envelope with tag 0 |
| Formatter.EnvelopeLength | Assets/Scripts/Generated/MessagePackGenerated/MessagePack_Formatters_Nextwin_Client_Protocol_SerializableDataFormatter.cs:34-35 | tags 0..127 are written as `0x91 t`, tags 128..255 as `0x91 0xcc t` |
| Formatter.FixedOffsetExact | Assets/Scripts/Nextwin.Client/Protocol/SerializableData.cs:25-28 | the byte-1 read of an encoded envelope returns its tag exactly when the tag is in 0..127 or is 204 |
| Formatter.FixedOffsetMisreads | Assets/Scripts/Nextwin.Client/Protocol/SerializableData.cs:27 | for every tag 128..255 the byte-1 read returns 204 |
| Formatter.FixedOffsetOnNil | Assets/Scripts/Nextwin.Client/Protocol/SerializableData.cs:27 | a null envelope is too short for the byte-1 read |
| Network.NetworkManager.constructor | Assets/Scripts/Nextwin.Client/Game/NetworkThreadManager.cs:27 | a new transport is disconnected and has nothing pending or delivered |
| Network.NetworkManager.Connect | Assets/Scripts/Nextwin.Client/Game/GameManagerBase.cs:29 | the connection is up exactly when the server accepts; no frame moves |
| Network.NetworkManager.Receive | Assets/Scripts/Nextwin.Client/Game/NetworkThreadManager.cs:38 | returns the oldest pending frame, byte for byte, and records it as delivered |
| Network.ServiceQueue.constructor | Assets/Scripts/Nextwin.Client/Game/NetworkThreadManager.cs:28 | a new queue is empty and has no history |
| Network.ServiceQueue.Enqueue | Assets/Scripts/Nextwin.Client/Game/NetworkThreadManager.cs:39 | the frame joins the tail; the entries already queued are unchanged; first-in first-out order is kept |
| Network.ServiceQueue.TryDequeue | Assets/Scripts/Nextwin.Client/Game/GameManagerBase.cs:71 | succeeds exactly when the queue is not empty, and then removes and returns its head; first-in first-out order is kept |
| Network.NetworkThread.Start | Assets/Scripts/Nextwin.Client/Game/GameManagerBase.cs:60 | the thread is started |
| Network.Pauses | Assets/Scripts/Nextwin.Client/Game/NetworkThreadManager.cs:41-45 | with a sleep time of 0 or less there is no pause; otherwise there is one pause of that length per iteration |
| Network.NetworkThreadManager.constructor | Assets/Scripts/Nextwin.Client/Game/NetworkThreadManager.cs:15-18 | no queue and no transport yet; no pause made |
| Network.NetworkThreadManager.CreateNetworkThread | Assets/Scripts/Nextwin.Client/Game/NetworkThreadManager.cs:25-30 | uses the given transport, or a fresh one when none is given; installs a fresh empty queue; returns a new, unstarted thread |
| Network.NetworkThreadManager.ReceiveAndEnqueue | Assets/Scripts/Nextwin.Client/Game/NetworkThreadManager.cs:38-45 | one loop iteration: the received frame is appended to the queue as is, and a pause is made only for a positive sleep time |
| Network.NetworkThreadManager.CheckReceivingAndEnqueueServices | Assets/Scripts/Nextwin.Client/Game/NetworkThreadManager.cs:32-49 | while connected, every pending frame is appended in order with nothing taken out; while disconnected, nothing changes |
| Game.DispatchOf | Assets/Scripts/Nextwin.Client/Game/GameManagerBase.cs:76 | a frame of two or more bytes produces one handler call with byte 1 as the tag and the frame unchanged; a shorter frame produces none |
| Game.DispatchedAppend | Assets/Scripts/Nextwin.Client/Game/GameManagerBase.cs:71-76 | one more dequeued frame adds its handler call at the end |
| Game.DispatchedInOrder | Assets/Scripts/Nextwin.Client/Game/GameManagerBase.cs:64-77 | when every frame is long enough, each dequeued frame gets exactly one handler call, in queue order |
| Game.TicksTakePrefix | Assets/Scripts/Nextwin.Client/Game/GameManagerBase.cs:64-77 | with no new arrivals, k connected ticks take exactly min(k, queue length) frames, and they are the front of the queue |
| Game.GameManager.constructor | Assets/Scripts/Nextwin.Client/Game/GameManagerBase.cs:17-24 | no transport, no thread, no handler call yet |
| Game.GameManager.CreateNetworkManager | Assets/Scripts/Nextwin.Client/Game/GameManagerBase.cs:36-39 | a fresh, disconnected transport |
| Game.GameManager.Start | Assets/Scripts/Nextwin.Client/Game/GameManagerBase.cs:26-30 | a fresh transport, connected exactly when the server accepts |
| Game.GameManager.OnReceivedData | Assets/Scripts/Nextwin.Client/Game/GameManagerBase.cs:84 | the call is recorded at the end of the handler log |
| Game.GameManager.CreateNetworkThread | Assets/Scripts/Nextwin.Client/Game/GameManagerBase.cs:52-62 | the first call creates, starts and backgrounds a thread over the game's transport and a fresh queue; later calls change nothing |
| Game.GameManager.CheckServiceQueue | Assets/Scripts/Nextwin.Client/Game/GameManagerBase.cs:64-77 | at most one frame, the queue's head, is taken; the rest of the queue is unchanged; the handler log grows by that frame's dispatch |
| Game.GameManager.Update | Assets/Scripts/Nextwin.Client/Game/GameManagerBase.cs:41-50 | disconnected: nothing changes; connected: the thread exists afterwards, is never replaced, and one tick runs on the queue |
| Game.DispatchOrder | Assets/Scripts/Nextwin.Client/Game/GameManagerBase.cs:71-76 | the frames taken are the front of everything enqueued, and the handler log is their dispatch in that order |
| Registration.SelfTestBytes | Nextwin.Client/Game/MessagePackRegisterer.cs:127-128 | the self-test envelope is written as `0x91 0x00`: 59114 is out of range, so the tag is 0 |
| Registration.SelfTestRoundTrip | Nextwin.Client/Game/MessagePackRegisterer.cs:127-131 | with any constant in place of 59114 the self-test reads back the tag it wrote, once the depth limit allows one level |
| Registration.CheckRegisterSuccess | Nextwin.Client/Game/MessagePackRegisterer.cs:125-139 | returns true when the depth limit allows one level; otherwise the depth-limit error is passed on |
| Registration.Registerer.constructor | Nextwin.Client/Game/MessagePackRegisterer.cs:14 | not registered, no resolver chain, default options not set |
| Registration.Registerer.Initialize | Nextwin.Client/Game/MessagePackRegisterer.cs:17-40 | changes nothing once registered; otherwise installs the chain Standard, Generated, Unity, UnityBlitWithPrimitiveArray and the default options, and sets the flag exactly when the self-test passes; the flag is never cleared |
| UI.UIElement.constructor | Assets/Scripts/Nextwin.Client/UI/UIManagerBase.cs:52 | a UI with its ID and no Show call yet |
| UI.UIElement.Show | Assets/Scripts/Nextwin.Client/UI/UIManagerBase.cs:65 | the call is recorded at the end of the UI's Show log |
| UI.FirstByIdEntries | Assets/Scripts/Nextwin.Client/UI/UIManagerBase.cs:56-66 | every UI in the registry is one of the UIs found, filed under its own ID |
| UI.FirstByIdKeys | Assets/Scripts/Nextwin.Client/UI/UIManagerBase.cs:56-66 | the registry's keys are exactly the IDs of the UIs found |
| UI.FirstByIdFirstWins | Assets/Scripts/Nextwin.Client/UI/UIManagerBase.cs:58-62 | the first UI found with an ID is the one filed under it; later ones with that ID are skipped |
| UI.FindUIs | Assets/Scripts/Nextwin.Client/UI/UIManagerBase.cs:52-67 | builds the first-wins registry from a fresh dictionary; Show(false) is called exactly once on each UI filed and never on a skipped duplicate |
| UI.UIManager.constructor | Assets/Scripts/Nextwin.Client/UI/UIManagerBase.cs:17-18 | both registries start null (no initializer) |
| UI.UIManager.Start | Assets/Scripts/Nextwin.Client/UI/UIManagerBase.cs:20-24 | both registries are rebuilt by FindUIs from the frames and the dialogs found; each frame and dialog filed gets Show(false) exactly once, a skipped duplicate none |
| UI.UIManager.GetFrame | Assets/Scripts/Nextwin.Client/UI/UIManagerBase.cs:26-34 | fails exactly when the registry is still null; otherwise null exactly when no frame has the ID, else the frame filed under it |
| UI.UIManager.GetDialog | Assets/Scripts/Nextwin.Client/UI/UIManagerBase.cs:36-44 | fails exactly when the registry is still null; otherwise null exactly when no dialog has the ID, else the dialog filed under it |
| Collision.Invocations | Assets/Scripts/Nextwin.Client/Util/OtherCollisionChecker.cs:46 | a multicast call invokes each handler of its list once, in order, with the same collider |
| Collision.InvocationsAppend | Assets/Scripts/Nextwin.Client/Util/OtherCollisionChecker.cs:39-46 | after a handler is added, firing makes the earlier handlers' calls and then the new handler's |
| Collision.OtherCollisionChecker.constructor | Assets/Scripts/Nextwin.Client/Util/OtherCollisionChecker.cs:27 | an empty event dictionary and no handler call |
| Collision.OtherCollisionChecker.Add | Assets/Scripts/Nextwin.Client/Util/OtherCollisionChecker.cs:31 | Dictionary.Add: fails on a duplicate key and changes nothing, otherwise files the list under the event |
| Collision.OtherCollisionChecker.Awake | Assets/Scripts/Nextwin.Client/Util/OtherCollisionChecker.cs:29-37 | on the fresh dictionary all six events are present afterwards, each with no handler; a second Awake fails with a duplicate key |
| Collision.OtherCollisionChecker.AddCollisionEvent | Assets/Scripts/Nextwin.Client/Util/OtherCollisionChecker.cs:39-42 | appends the handler to the event's list and leaves every other event's list as it was; fails on an event that is not present |
| Collision.OtherCollisionChecker.Fire | Assets/Scripts/Nextwin.Client/Util/OtherCollisionChecker.cs:46 | the event's handlers are invoked in order with the collider, and nothing is invoked for an empty list; fails on an event that is not present |
| Collision.OtherCollisionChecker.OnCollisionEnter | Assets/Scripts/Nextwin.Client/Util/OtherCollisionChecker.cs:44-47 | invokes the OnCollisionEnter handlers with the collision's collider |
| Collision.OtherCollisionChecker.OnCollisionExit | Assets/Scripts/Nextwin.Client/Util/OtherCollisionChecker.cs:49-52 | invokes the OnCollisionExit handlers with the collision's collider |
| Collision.OtherCollisionChecker.OnCollisionStay | Assets/Scripts/Nextwin.Client/Util/OtherCollisionChecker.cs:54-57 | invokes the OnCollisionStay handlers with the collision's collider |
| Collision.OtherCollisionChecker.OnTriggerEnter | Assets/Scripts/Nextwin.Client/Util/OtherCollisionChecker.cs:59-62 | invokes the OnTriggerEnter handlers with the other collider |
| Collision.OtherCollisionChecker.OnTriggerExit | Assets/Scripts/Nextwin.Client/Util/OtherCollisionChecker.cs:64-67 | invokes the OnTriggerExit handlers with the other collider |
| Collision.OtherCollisionChecker.OnTriggerStay | Assets/Scripts/Nextwin.Client/Util/OtherCollisionChecker.cs:69-72 | invokes the OnTriggerStay handlers with the other collider |
| Player.LookAfterKeys | Nextwin.Client/Game/PlayerController.cs:174-189 | after the direction keys of a frame, x is 1 for right, else -1 for left, else unchanged; z is -1 for down, else 1 for up, else unchanged |
| Player.DestAfterKeys | Nextwin.Client/Game/PlayerController.cs:174-189 | without a direction key the destination is unchanged; with one it is put at the body's height |
| Player.OppositeKeysCancel | Nextwin.Client/Game/PlayerController.cs:197-215 | with exact arithmetic, up and down together, or left and right together, leave the destination's horizontal position unchanged (float rounding may leave a small drift in the original) |
| Player.SpeedAfterKeys | Nextwin.Client/Game/PlayerController.cs:166-173 | releasing the run key gives the walk speed; holding it gives the run speed; otherwise the speed is kept |
| Player.TippedAxis | Nextwin.Client/Game/PlayerController.cs:317-329 | tipped about x exactly when its angle is in 90..270; about z exactly when x is not and z's angle is in 90..270 |
| Player.PlayerController.constructor | Nextwin.Client/Game/PlayerController.cs:76-113 | the settings as given, every state flag false, the speed and positions at zero |
| Player.PlayerController.Start | Nextwin.Client/Game/PlayerController.cs:124-133 | walking speed, the destination where the body stands, and a foot checker whose enter and exit handlers set and clear ground contact |
| Player.PlayerController.SetDestPos | Nextwin.Client/Game/PlayerController.cs:280-285 | the destination moves along the direction by frame time times speed and is put at the body's height |
| Player.PlayerController.SetLookDir | Nextwin.Client/Game/PlayerController.cs:454-464 | x = 0 sets z and keeps x; otherwise z = 0 sets x and keeps z; otherwise nothing changes |
| Player.PlayerController.OnInputDirection | Nextwin.Client/Game/PlayerController.cs:197-235 | a direction key moves the destination, turns the facing unless the mouse steers, and makes a move pending |
| Player.PlayerController.OnInputUpKey | Nextwin.Client/Game/PlayerController.cs:197-205 | moves the destination forward, faces z = 1 unless the mouse steers, and makes a move pending |
| Player.PlayerController.OnInputDownKey | Nextwin.Client/Game/PlayerController.cs:207-215 | moves the destination backward, faces z = -1 unless the mouse steers, and makes a move pending |
| Player.PlayerController.OnInputLeftKey | Nextwin.Client/Game/PlayerController.cs:217-225 | moves the destination left, faces x = -1 unless the mouse steers, and makes a move pending |
| Player.PlayerController.OnInputRightKey | Nextwin.Client/Game/PlayerController.cs:227-235 | moves the destination right, faces x = 1 unless the mouse steers, and makes a move pending |
| Player.PlayerController.OnInputRunKey | Nextwin.Client/Game/PlayerController.cs:237-240 | the speed becomes the run speed |
| Player.PlayerController.OnReleaseRunKey | Nextwin.Client/Game/PlayerController.cs:242-245 | the speed becomes the walk speed |
| Player.PlayerController.OnInputJumpKey | Nextwin.Client/Game/PlayerController.cs:247-250 | a jump is pending |
| Player.PlayerController.InputRunKey | Nextwin.Client/Game/PlayerController.cs:166-173 | the speed is SpeedAfterKeys of the run key's state |
| Player.PlayerController.InputDirectionKeys | Nextwin.Client/Game/PlayerController.cs:174-189 | destination and facing as DestAfterKeys and LookAfterKeys; a move is pending exactly when one was or a direction key is held |
| Player.PlayerController.InputKey | Nextwin.Client/Game/PlayerController.cs:159-194 | without control, or while fallen, nothing changes; otherwise the speed, destination, facing and move follow the keys, and a jump is pending exactly when one was or the jump key went down; Valid is kept |
| Player.PlayerController.Move | Nextwin.Client/Game/PlayerController.cs:257-270 | a pending move while not fallen takes the body to the destination and is cleared; otherwise nothing changes |
| Player.PlayerController.Jump | Nextwin.Client/Game/PlayerController.cs:292-305 | a pending jump while not fallen and on the ground gives one upward impulse of the jump power and is cleared; otherwise nothing changes |
| Player.PlayerController.ChangeStateFallDown | Nextwin.Client/Game/PlayerController.cs:335-344 | on the ground the character is fallen about the given axis; otherwise nothing changes |
| Player.PlayerController.CheckFallDown | Nextwin.Client/Game/PlayerController.cs:317-329 | a tipped body on the ground falls about the axis TippedAxis names; nothing changes when upright or in the air |
| Player.PlayerController.WakeUp | Nextwin.Client/Game/PlayerController.cs:349-370 | does nothing unless the character is fallen and not already getting up; then it drops the pending move and jump, and is still getting up, fallen and kinematic exactly when the body is not upright yet |
| Player.PlayerController.FinishWakeUp | Nextwin.Client/Game/PlayerController.cs:363-369 | no longer getting up or fallen, and no longer kinematic |
| Player.PlayerController.ResumeWakeUp | Nextwin.Client/Game/PlayerController.cs:388-397 | once upright the character finishes getting up; otherwise nothing changes |
| Player.PlayerController.RotateWithKeyboard | Nextwin.Client/Game/PlayerController.cs:436-447 | with a move pending and no mouse steering the facing is reset to zero; otherwise nothing changes |
| Player.PlayerController.CheckStandOnGroundTag | Nextwin.Client/Game/PlayerController.cs:487-493 | ground contact becomes isEnter exactly when the tag is the ground tag; otherwise nothing changes |
| Player.PlayerController.CheckStandOnGroundLayer | Nextwin.Client/Game/PlayerController.cs:495-501 | ground contact becomes isEnter exactly when the layer is the ground layer; otherwise nothing changes |
| Player.PlayerController.CheckStandOnGround | Nextwin.Client/Game/PlayerController.cs:473-485 | the tag or layer check as configured: contact becomes isEnter when the collider is ground, otherwise nothing changes |
| Player.PlayerController.OnFootEvent | Nextwin.Client/Game/PlayerController.cs:551-559 | a foot handler runs the ground check with its own isEnter |
| Player.PlayerController.SetFootCollisionChecker | Nextwin.Client/Game/PlayerController.cs:542-560 | a fresh checker with all six events, enter holding the contact-begins handler, exit the contact-ends handler, the others none |
| Player.PlayerController.Update | Nextwin.Client/Game/PlayerController.cs:135-140 | a fallen character's pending move and jump are untouched; afterwards it is fallen exactly when it was, or it is on the ground and tipped over |
| Player.PlayerController.FixedUpdate | Nextwin.Client/Game/PlayerController.cs:142-148 | afterwards no move is pending; a jump stays pending only while up and in the air; a pending move while not fallen takes the body to the destination; Valid is kept |
| MpcWindow.ContainsOccurs | Assets/Scripts/MessagePack/Unity/MessagePackWindow.cs:76 | the substring search succeeds exactly when the substring occurs at some index |
| MpcWindow.RenderFlagsAppend | Assets/Scripts/MessagePack/Unity/MessagePackWindow.cs:246-265 | the text of two runs of switches is the text of the first followed by the text of the second |
| MpcWindow.ToString | Assets/Scripts/MessagePack/Unity/MessagePackWindow.cs:241-268 | the StringBuilder's appends produce CommandLine: the input and output, then the switches the arguments call for |
| MpcWindow.AppendOptional | Assets/Scripts/MessagePack/Unity/MessagePackWindow.cs:246-249 | a valued switch is appended with its value unless the value is null or white space |
| MpcWindow.AppendMapMode | Assets/Scripts/MessagePack/Unity/MessagePackWindow.cs:254-257 | the map-mode switch is appended when map mode is on |
| MpcWindow.FindAppend | Assets/Scripts/MessagePack/Unity/MessagePackWindow.cs:244-265 | the first switch of a kind in two runs of switches is in the first run if it has one, else in the second |
| MpcWindow.FlagPresence | Assets/Scripts/MessagePack/Unity/MessagePackWindow.cs:246-265 | -c, -r, -n and -ms are written, with their value, exactly when that value is not null or white space; -m exactly when map mode is on |
| MpcWindow.FlagsOrdered | Assets/Scripts/MessagePack/Unity/MessagePackWindow.cs:244-267 | the switches come in the order -c, -r, -m, -n, -ms, each at most once |
| MpcWindow.CommandLineStartsWithPrefix | Assets/Scripts/MessagePack/Unity/MessagePackWindow.cs:244-245 | every command line starts with `-i`, the input, `-o` and the output |
| MpcWindow.PlatformSettings | Assets/Scripts/MessagePack/Unity/MessagePackWindow.cs:72-90 | Window, "dotnet" and "mpc" exactly when "Win" occurs in the name; else Unix and the /usr/local/share/dotnet/dotnet path for both exactly when "Unix" occurs |
| MpcWindow.MessagePackWindow.constructor | Assets/Scripts/MessagePack/Unity/MessagePackWindow.cs:22-24 | OS at its default Window, no dotnet and no mpc path |
| MpcWindow.MessagePackWindow.CheckAndSetOS | Assets/Scripts/MessagePack/Unity/MessagePackWindow.cs:72-90 | assigns the platform and the two executables PlatformSettings gives, and nothing when it gives none |
| MpcWindow.PlatformIdNames | Assets/Scripts/MessagePack/Unity/MessagePackWindow.cs:76-89 | the platform names Win32NT and Unix select Window and Unix; MacOSX selects nothing |

## Left out

- Threads and the synchronisation of `ConcurrentQueue`. The queue is a sequence used by both sides one step at a time, and the receive loop's iteration is a method a scheduler can interleave with game ticks. Real concurrency and the timing of `Thread.Sleep` are not modelled: a sleep is recorded as a pause and affects nothing else.
- The transport `Nextwin.Net.NetworkManager` is not part of this model. Whether the server accepts a connection, which frames it sends and when the connection drops are inputs (`Connect`, `Arrive`, `Close`).
- Network.NetworkManager.Receive: a Receive that would block is not taken. The receive loop stops where the next frame has not arrived yet, rather than waiting.
- Assets/Scripts/Nextwin.Client/Protocol/Serializer.cs is not part of this model: it is a thin wrapper over `MessagePackSerializer`.
- The MessagePack library beyond the byte subset the generated formatter uses: resolver lookup, `StaticCompositeResolver` internals, `MessagePackSerializerOptions`, and `MessagePackSecurity` beyond its depth limit. Writing a string is modelled only as far as `Skip` must pass over one.
- Registration: `InstallMessagePack`, `LoadResolver` (assembly search and `Activator`), `CreateProcessStartInfo` and the logging. The loaded resolvers are named by the class each stands for.
- Logging: `Print.LogError` in `IsValidMsgType` (SerializableData.cs:34), `Debug.LogError` in `GetFrame`, `GetDialog` and `FindUIs` (UIManagerBase.cs:30, 40, 60) and `Debug.Log` in the network thread (NetworkThreadManager.cs:34, 48) have no effect on the model's state and are dropped.
- MpcWindow: the editor window (`OnGUI`, `OnEnable`), process spawning (`ProcessHelper`) and the `EditorPrefs`/`JsonUtility` persistence of the arguments. The platform is given by the name of `Environment.OSVersion.Platform`.
- MpcWindow.IsWhiteSpace: covers the characters `char.IsWhiteSpace` accepts in the Basic Multilingual Plane, as a fixed list.
- Floating point: every float of the player is a real number, with exact arithmetic and no rounding. Vector normalisation is left to the caller: the pivot directions given to the input methods are taken as already projected and normalised.
- Player.PlayerController.RotateWithKeyboard: the slerp of the body's rotation toward the facing is not modelled; only the reset of the facing is.
- Player: `RotateWithMouse` (it only turns transforms), `LateUpdate` and the camera controller, `CheckHierarchy`, `SetCameraController`, the animator, and the empty `OnMoveStart`/`OnJumpStart`/`OnWakeUpStart` hooks with their finish counterparts.
- Player: the physics engine. How rigid-body physics moves and tips the body is not modelled. The body's Euler angles are inputs to `Update`, and whether the body is upright again is an input to `WakeUp` and `ResumeWakeUp`.
- Player.PlayerController.ResumeWakeUp: the lerp of the body's angles between the coroutine's waits is not modelled; only the finish of getting up is.
- Player.PlayerController.CheckStandOnGroundLayer: `LayerMask.NameToLayer` is not modelled; the ground layer's number is a parameter.
- Player: the order in which Unity calls `Update`, `FixedUpdate` and the collision callbacks is the caller's choice. Each is a method of its own.
- The rest of the repository (camera controller, UI animations, audio, video, action timing, singletons) is outside this model.
