# hda-emu: a verified model

hda-emu emulates an HD-audio codec (Intel High Definition Audio Specification, revision 1.0a, section
7.3) and stands in for the kernel layers above it. This project models the parts of the emulator that
carry state or search, and proves what they keep over every run and every input.

- `Codec.dfy`, `Routes.dfy`, `RouteLaws.dfy`: the widget graph and the two depth-bounded searches for
  signal routes. What a route is, is said without any search; the searches list exactly those, and
  agree with each other.
- `Verbs.dfy`, `VerbLaws.dfy`, `CapLaws.dfy`, `CoefLaws.dfy`, `PinLaws.dfy`, `WordLaws.dfy`: the
  codec as a machine driven by 32-bit command words: which words it knows and how it refuses the others,
  amplifiers and their capabilities, selectors, coefficient tables, connection lists, and pins with their
  part in routes.
- `NodeList.dfy`: the sorted chain of widgets that the parser builds.
- `VMaster.dfy`, `VolumeLaws.dfy`: the virtual master volume over its follower controls, and what it
  makes of each value.
- `RegMap.dfy`, `CacheLaws.dfy`: the register cache, a linked list in front of a device whose accesses
  may fail, and what each access does to registers and cache.
- `Sequences.dfy`, `Text.dfy`, `ConnText.dfy`, `AmpText.dfy`, `DigitalText.dfy`: the proc-file
  printers and the parser that undoes them, line by line.
- `PinText.dfy`, `WidgetText.dfy`, `LineLaws.dfy`, `DumpLaws.dfy`, `DumpRoutes.dfy`: the lines of a whole
  widget through the modes of the parser, the round trip from the verbs through printer and parser, and the signal
  routes that a codec parsed from its dump still has.
- `ChmapTlv.dfy`: the bounded writer of channel maps in TLV form.
- `Controls.dfy`: the control registry and the index of a new jack control.
- `RuntimePm.dfy`: reference-counted runtime power management.
- `Runs.dfy`: what runs of operations and turns of loops have in common.

The parts that change state are classes and methods with the loops of the source; each is proved equal
to a function on a snapshot of the state, and the laws are lemmas about those functions, over single
steps and over whole runs. `dafny verify dfyconfig.toml` checks everything.

Conventions. A widget pointer is a position in the codec's list of widgets. A character pointer is the
text from there on, its end standing for the terminator. Lists that the source keeps as chains are
sequences, except the register cache, which is a chain of cells with a tail pointer. Device contents,
failing device accesses and uninitialised buffers are parameters.

Where the code and its documentation differ, the model follows the code:

- The route search admits 12 widgets, one more than the route record and the search buffer hold
  (hda-int.c:1402, 1439; include/hda-types.h:146). The buffer of the model has 12 slots, and both
  searches report if they write the last, which in the source lies past the end: `OverrunsTo` and
  `OverrunsFrom` say exactly when, `RecordsFitTo` and `RecordsFitFrom` when the records suffice. The
  forward search writes a consumer before it looks at its type (hda-int.c:1472), so that it may leave
  the buffer where no route exists (`OverrunWithoutRoute`).
- A gain beyond the steps of an amplifier is clamped to `nsteps - 1` and wraps round when there are no
  steps (hda-int.c:158-161).
- A command that sets both amplifiers of a widget uses one index variable for both, so that the input
  side starts from the index that the output side corrected (hda-int.c:191-224).
- The coefficient index counts past 16 bits although the table entries do not (hda-int.c:696,
  include/hda-types.h:26-30): such a write shows at the low half of its index and is lost at the index
  itself.
- The amplifier parser takes no value from the mono lines that the printer writes (hda-parse.c:156).
- The parser reads lines into 256 characters (hda-parse.c:642, 652), while the printer's line of input
  amplifiers has up to 400: 20 pairs are restored. With exactly 20 the bare line end that is left over
  takes the parser out of the widget (hda-parse.c:700-703); a line of 20 or more output pairs makes it
  run off its buffer.
- The parser leaves a widget after its connection list (hda-parse.c:300-301), but the printer writes the
  processing capabilities behind that (hda_own_proc.c:720-725): they are lost exactly for a list that
  is not empty. It also leaves at the line that tells of missing PCM capabilities, which has no indent.
- The commands of NID 0 have no widget record, but several handlers look into one (hda-int.c:339-350,
  371-382, 650-707, 709-870, 1009-1013): `HdaCmd` reports the fault.
- The printer stars no selection of a power widget, although one can be set and routes depend on it
  (hda_own_proc.c:508-511; hda-int.c:288-310, 1410-1411): the parsed widget selects its first input. A pin
  control that the capabilities of its pin forbid is cut down by the parser (hda-parse.c:241-245).
- A duplicate NID stops the parser (hda-parse.c:108-110): the chain is that of the widgets before it.
- `regmap_update_bits_check` goes round the cache (lib/hdac_regmap.c:202-213).
- While the cache alone takes writes, one to a volatile register succeeds and is lost, for the cache
  takes no volatile register (lib/hdac_regmap.c:100-114).
- A follower that is not supported is refused once and taken as initialised afterwards
  (snd-vmaster.c:86-109), and one of more than two channels then has its record overrun:
  `RefusedOnce` and `SecondGetOverruns` say exactly when. A sync ignores the refusal
  (snd-vmaster.c:327) and copies to a control of another kind what its neighbour in the list got. The other laws
  are about supported followers, as the comment at lines 236-246 asks.

## Model

| member | source | states |
|---|---|---|
| `HdaCodec.FindUnique` | hda-int.c:1159-1172 | With unique NIDs the lookup of a widget's NID gives back that very widget. |
| `Routes.CreateRoute` | hda-int.c:1369-1381 | A route record is the used part of the search buffer, in order or reversed. |
| `Routes.RoutesConnectedTo` | hda-int.c:1395-1434 | The backward search terminates, keeps the buffer before its depth, adds to the list, once each, exactly the routes that go on from the widgets already in the buffer, and writes the slot past the end exactly when a partial walk through them fills the buffer and has a source in front. |
| `Routes.FollowConnection` | hda-int.c:1405-1432 | One turn of its loop adds exactly the routes through that one connection. |
| `Routes.ExtendedRoute` | hda-int.c:1405-1432 | Every route through a partial one takes an admitted connection to a widget that is found, and stops there or not by that widget's type. |
| `Routes.HdaRoutesConnectedTo` | hda-int.c:1436-1446 | The result is, as a multiset of index-labelled paths, exactly the walks of 2 to 12 widgets that end at the NID, hop by admitted connections, start at an output or admitted pin and pass no output or pin; nothing for an unknown NID. The search leaves its buffer exactly when a partial walk of 11 widgets is fed by an admitted source. |
| `Routes.RoutesConnectedFrom` | hda-int.c:1448-1489 | The same for the forward search, over all widgets of the chain and all their entries; any consumer behind a full buffer is written past its end. |
| `Routes.FollowConsumer` | hda-int.c:1464-1487 | One turn of its inner loop adds exactly the routes into that one entry. |
| `Routes.ContinuedRoute` | hda-int.c:1460-1487 | Every route that continues a partial one enters a different widget of the chain by an admitted entry with the right NID, and stops there or not by type. |
| `Routes.HdaRoutesConnectedFrom` | hda-int.c:1491-1501 | The result is exactly the multiset of forward routes from the NID. The search leaves its buffer exactly when a partial walk of 11 widgets has any admitted consumer. |
| `Routes.RoutesAgree` | hda-int.c:1395-1501 | With unique NIDs, a walk between admitted ends without self-loop, whose consumers are in the chain and which has no output, input or pin on the way, is a backward route exactly when it is a forward one. |
| `Routes.CountAlong` | hda-int.c:1424-1427 | A path is listed once for each of its index labellings. |
| `Routes.SearchesAreDual` | hda-int.c:1395-1501 | Such a path is listed by the search to its end exactly as often as by the search from its start. |
| `Routes.LongestRoute` | hda-int.c:1402-1427 | A route of 12 widgets exists, one more than the record has room for. |
| `Routes.RecordsFitTo` | include/hda-types.h:142-148 | All routes of a backward list fit the record of 11 widgets exactly when the search stays within its buffer. |
| `Routes.RecordsFitFrom` | include/hda-types.h:142-148 | All routes of a forward list fit the record exactly when no partial walk of 11 widgets has an admitted hop to an input or admitted pin. |
| `Routes.OverrunWithoutRoute` | hda-int.c:1458-1486 | Two mixers that feed each other make the forward search leave its buffer although its list is empty. |
| `Routes.SpillsToStep` | hda-int.c:1402-1432 | The backward search writes past the end exactly if one of its turns does: at the last depth for an admitted source, before it in the search below. |
| `Routes.SpillsFromStep` | hda-int.c:1456-1486 | The forward search writes past the end exactly if one of its turns does: at the last depth for any admitted consumer, before it in the search below. |
| `RouteLaws.RoutesSurviveCommands` | hda-int.c:1383-1501 | A list of routes, in either direction, stays right through any run of commands other than selections, pin controls and pin configurations. |
| `RouteLaws.RouteToPlainly` | hda-int.c:1383-1434 | What a backward route is, on the fields that the source looks at: selections, mixers, types, and of a first pin its connectivity and input enable. |
| `RouteLaws.RouteFromPlainly` | hda-int.c:1383-1489 | What a forward route is, likewise, with the output enable of a last pin. |
| `RouteLaws.SameLists` | hda-int.c:1383-1501 | Codecs that agree on what a search looks at have the same routes. |
| `PinLaws.PinWords` | hda-int.c:478-496 | The pin control word stores its byte and only that; both pin words for reading answer with what is stored. |
| `PinLaws.ConfigWord` | hda-int.c:589-635 | Each of the four configuration words stores its byte of the pin default and keeps the other three. |
| `PinLaws.FromPinExactly` | hda-int.c:1383-1394 | A walk from a pin is a route exactly if it is one with inactive pins shown, and these are shown or the pin is connected and its input enabled. |
| `PinLaws.ToPinExactly` | hda-int.c:1383-1394 | A walk to a pin likewise, with its output enabled. |
| `PinLaws.PinWordRoutes` | hda-int.c:478-488 | After a pin control word the pin starts routes exactly if that enables its input, and ends them exactly if it enables its output, unless nothing is connected to it. |
| `PinLaws.ConfigWordRoutes` | hda-int.c:589-627 | After the word for the highest configuration byte the pin takes part in routes only if that does not say that nothing is connected; the other three words change no route. |
| `VMaster.LinkFollower.FollowerUpdate` | snd-vmaster.c:61-78 | Takes the user values from the hardware; more than two channels overrun the record. |
| `VMaster.LinkFollower.FollowerInit` | snd-vmaster.c:81-116 | Initialises once; refuses unsupported controls, those of more than two channels included, but takes them for initialised the next time; re-reads only where the follower asks for it. |
| `VMaster.LinkFollower.CopyVals` | snd-vmaster.c:149-150 | Copies the user values to the buffer and nothing behind them; more than two channels overrun the record. |
| `VMaster.LinkFollower.Attenuate` | snd-vmaster.c:162-181 | Attenuates every channel of the buffer in place and nothing behind them. |
| `VMaster.LinkFollower.StoreVals` | snd-vmaster.c:211-216 | Takes over the new values and tells exactly whether any differs. |
| `VMaster.LinkMaster.AddFollower` | snd-vmaster.c:256-283 | A new follower goes to the end of the list. |
| `VMaster.LinkMaster.MasterInit` | snd-vmaster.c:119-139 | Takes the range of the first follower and starts at its maximum; fails for an empty list. |
| `VMaster.LinkMaster.FollowerGetVal` | snd-vmaster.c:141-152 | Answers with the user values, initialising the follower first. |
| `VMaster.LinkMaster.FollowerPutVal` | snd-vmaster.c:154-183 | Pushes the attenuated buffer to the hardware of the one follower. |
| `VMaster.LinkMaster.FollowerPut` | snd-vmaster.c:202-223 | Keeps what the user asked for and pushes it attenuated, if anything changed. |
| `VMaster.LinkMaster.MasterGet` | snd-vmaster.c:305-314 | Answers with the master value. |
| `VMaster.LinkMaster.SyncFollowers` | snd-vmaster.c:316-333 | The loop over the list equals syncing its followers one after the other, whatever the buffer held. |
| `VMaster.LinkMaster.MasterPut` | snd-vmaster.c:335-357 | A new master value syncs all followers; the same value does nothing. |
| `VMaster.LinkMaster.SndCtlSyncVmaster` | snd-vmaster.c:468-489 | Syncs all followers at the current value. |
| `VMaster.SyncedEffect` | snd-vmaster.c:316-333 | After n turns exactly the first n followers hold their values attenuated by the new master value. |
| `VMaster.PutEffect` | snd-vmaster.c:202-223 | A user put changes that follower's values and hardware and nothing a user of another control sees. |
| `VMaster.MoveEffect` | snd-vmaster.c:335-357 | A master move changes no stored user value and attenuates every follower anew. |
| `VMaster.ResyncEffect` | snd-vmaster.c:468-489 | A resync restores the attenuated values from arbitrary hardware contents. |
| `VMaster.StepKeeps` | snd-vmaster.c:61-489 | Each operation keeps every cached follower's hardware equal to its attenuated user values. |
| `VMaster.RunSound` | snd-vmaster.c:61-489 | The same over whole runs of gets, puts, master moves, resyncs and joins. |
| `VMaster.RunForgetsHistory` | snd-vmaster.c:154-357 | The hardware after any run is a function of the last master value and the follower's own last put alone. |
| `VolumeLaws.MoveHardware` | snd-vmaster.c:162-181 | After a move of the master each volume is as far below its user value as the master is below its full volume, but within its range; each switch is on exactly if its user and the master are. |
| `VolumeLaws.PutHardware` | snd-vmaster.c:202-223 | The same after a put of a user, whose values are kept. |
| `VolumeLaws.RunHardware` | snd-vmaster.c:61-489 | The same after any run, for the last value of the master and the last values of the user. |
| `VolumeLaws.PutAnswers` | snd-vmaster.c:202-223 | A put answers 1 exactly if it changes a value of the user, and else 0. |
| `VolumeLaws.MoveAnswers` | snd-vmaster.c:335-357 | A move answers 1 exactly if it changes the value of the master, and else 0; an empty list is an error. |
| `VolumeLaws.InitAnswers` | snd-vmaster.c:119-139 | The first call initialises the master at its maximum and answers 1, later ones answer 0. |
| `VMaster.RunAnswers` | snd-vmaster.c:141-152 | A get after any run answers with the last values its user asked for, never with the attenuated ones. |
| `VMaster.SameEndSameHardware` | snd-vmaster.c:154-357 | Two runs with the same last values leave identical hardware. |
| `VMaster.FullVolumeRestores` | snd-vmaster.c:169-181 | With the master at its maximum the hardware holds the user values clamped to the control's range. |
| `VMaster.JoinExactly` | snd-vmaster.c:236-283 | A late control keeps the group coherent exactly when it re-reads its hardware or holds values the master leaves alone: switches off, or on under a master that is on; volumes in range at full volume, at their minimum below it, at their maximum above it. |
| `VMaster.JoinAtFull` | snd-vmaster.c:236-283 | At full volume any control of the group's type with values in range may join. |
| `VMaster.UncachedForgets` | snd-vmaster.c:86-90 | A follower that re-reads its hardware stays where the lower master had brought it; it has its values back exactly when they were such that the lower master left them alone. |
| `VMaster.UncachedLoses` | snd-vmaster.c:86-90 | A volume at 5 of 10 ends at 2 after the master went down to 7 and back. |
| `VMaster.UntouchedExactly` | snd-vmaster.c:162-181 | Attenuation leaves values alone exactly in the cases a caller can read off them, the master value and the range. |
| `VMaster.RefusedOnce` | snd-vmaster.c:86-109 | The first initialisation refuses exactly the controls of other kinds or more than two channels, the second only those of another kind without channels. |
| `VMaster.SecondGetOverruns` | snd-vmaster.c:86-150 | The second get of a control leaves its record exactly when it has more than two channels; the first never does. |
| `VMaster.RunOnlyWide` | snd-vmaster.c:61-489 | In the model, which goes on past an overrun, no run on any controls overruns the record of one with at most two channels. |
| `VMaster.FirstOverrun` | snd-vmaster.c:61-489 | A run that ends with an overrun has a first one, and the records overrun by then are of controls with more than two channels. |
| `VMaster.RefusedSync` | snd-vmaster.c:324-330 | In its first sync an unsupported control gets the buffer as it is if it is of another kind; a wide volume is set to 0. |
| `VMaster.SecondSync` | snd-vmaster.c:324-330 | In its second sync a control of another kind gets the values of its record, or keeps what it has if it re-reads; a wide one has its record overrun. |
| `VMaster.BeforeTurn` | snd-vmaster.c:324-330 | The turns of a sync leave later followers alone, and in the buffer what the last of them pushed. |
| `VMaster.RefusedGetsNeighbour` | snd-vmaster.c:324-330 | So the first sync of a list sets a control of another kind to what its predecessor got, or to what the buffer held. |
| `RegMap.Regmap.CacheFindReg` | lib/hdac_regmap.c:57-66 | Finds the first cell of the register in the linked list, null if there is none. |
| `RegMap.Regmap.CacheWriteReg` | lib/hdac_regmap.c:78-98 | Overwrites the cell or appends one, keeping links, tail pointer and contents. |
| `RegMap.Regmap.CacheAppend` | lib/hdac_regmap.c:88-97 | The new cell goes behind the tail, or becomes head and tail of an empty list. |
| `RegMap.Regmap.RegmapWrite` | lib/hdac_regmap.c:100-114 | Device, cache and error code of a write in every mode. |
| `RegMap.Regmap.RegmapRead` | lib/hdac_regmap.c:116-131 | Device, cache, error code and value of a read in every mode. |
| `RegMap.Regmap.RegcacheSync` | lib/hdac_regmap.c:133-149 | The loop writes back the list up to the first failure; success clears the dirty mark. |
| `RegMap.Regmap.RegcacheSyncRegion` | lib/hdac_regmap.c:151-169 | The same within a range, without touching the dirty mark. |
| `RegMap.Regmap.RegcacheCacheOnly` | lib/hdac_regmap.c:171-174 | Switches that one mode. |
| `RegMap.Regmap.RegcacheCacheBypass` | lib/hdac_regmap.c:176-179 | Switches that one mode. |
| `RegMap.Regmap.RegcacheMarkDirty` | lib/hdac_regmap.c:181-184 | Sets that one mark. |
| `RegMap.Regmap.RegmapUpdateBitsCheck` | lib/hdac_regmap.c:192-217 | Reads, merges and writes the device, round the cache, only if the merge changes anything. |
| `RegMap.CacheWriteLookup` | lib/hdac_regmap.c:57-98 | A cache write changes the one register and never enters a register twice. |
| `RegMap.WriteBackStops` | lib/hdac_regmap.c:140-147 | A write-back covers exactly a prefix of the list: all of it, or up to the entry whose write failed. |
| `RegMap.ResumeRestores` | lib/hdac_regmap.c:133-184 | From arbitrary device contents, marking dirty and syncing restores every cached writeable register, changes no other and clears the mark; a failure does so for a prefix and keeps the mark. |
| `RegMap.RetryFinishes` | lib/hdac_regmap.c:133-149 | After any number of failed attempts one success completes the restoration from the original contents. |
| `RegMap.RegionRestores` | lib/hdac_regmap.c:151-169 | The region form restores exactly the cached writeable registers of its range and keeps the mark. |
| `CacheLaws.RegionOnRegisters` | lib/hdac_regmap.c:151-169 | A sync of a range gives exactly the cached writeable registers from its first to its last, both included, their cached values, all of them or those up to the first failure. |
| `CacheLaws.SyncOnRegisters` | lib/hdac_regmap.c:133-149 | A sync of everything likewise, and clears the dirty mark exactly on success. |
| `CacheLaws.WriteOnRegisters` | lib/hdac_regmap.c:100-114 | A write: which registers of device and cache change in each mode, and with which answer. |
| `CacheLaws.ReadOnRegisters` | lib/hdac_regmap.c:116-131 | A read: where its answer comes from in each mode, what it caches, and which errors there are. |
| `CacheLaws.ReadSucceedsExactly` | lib/hdac_regmap.c:116-131 | On a device that works exactly the readable registers can be read. |
| `RegMap.ResumeCoherentExactly` | lib/hdac_regmap.c:140-143 | After a successful resume cache and device agree exactly when the read-only cached registers came back unchanged. |
| `RegMap.StepCoherent` | lib/hdac_regmap.c:57-131 | Each access keeps the cache distinct, free of volatile registers and in agreement with the device, failures included. |
| `RegMap.RunCoherent` | lib/hdac_regmap.c:57-131 | The same over whole runs of reads, writes, syncs and drifting volatile registers. |
| `RegMap.ReadIsCurrent` | lib/hdac_regmap.c:116-131 | After any run a successful read answers with the device value. |
| `RegMap.CacheIsTransparent` | lib/hdac_regmap.c:57-131 | No run on a device that works tells a cached map from an uncached one: same answers, same device. |
| `RegMap.RunOnDevice` | lib/hdac_regmap.c:100-131 | On a device that works a register that is not volatile holds the last value that a run wrote to it, if it is writeable, whatever reads and syncs lay between. |
| `RegMap.CacheOnlyRun` | lib/hdac_regmap.c:100-131 | While cache-only, nothing reaches the device and the cache keeps the last value written to each register. |
| `RegMap.SuspendResumeCycle` | lib/hdac_regmap.c:100-184 | Suspend, run, lose the device, resume and sync: if the sync succeeds, every writeable register holds the last value written to it while suspended, unless it is volatile, whose writes are lost; else the value cached before, or what the device came back with. |
| `RegMap.MergeBits` | lib/hdac_regmap.c:207-208 | The merged word has the masked bits of the new value and the other bits of the old. |
| `RegMap.MergeUnique` | lib/hdac_regmap.c:207-208 | It is the only such word. |
| `RegMap.UpdateBitsEffect` | lib/hdac_regmap.c:192-217 | On success the register holds the merged word, no other moves, and the change flag is exact. |
| `RegMap.UpdateBitsCoherence` | lib/hdac_regmap.c:192-217 | Going round the cache keeps it coherent exactly when one of the two accesses would fail, the register is not cached or the merge does not change its value. |
| `Verbs.XhdaNode.SetAmp` | hda-int.c:149-173 | Stores the sanitised value in the addressed channels of the one index. |
| `Verbs.XhdaNode.SetAmpGainMute` | hda-int.c:180-231 | Index checks of both directions, with the index that the output side leaves to the input side. |
| `Verbs.XhdaNode.GetAmpGainMute` | hda-int.c:233-286 | Reads the addressed direction, channel and checked index. |
| `Verbs.XhdaNode.SetConnectSel` | hda-int.c:288-310 | Moves the selector only to an existing entry and never on mixers and volume knobs. |
| `Verbs.XhdaNode.GetConnectList` | hda-int.c:320-337 | The loop ors up to four entries into the response, each shifted by a byte more than the last within 32 bits. |
| `Verbs.XhdaNode.SetProcCoef` | hda-int.c:663-698 | Writes or enters the coefficient at the current index and counts on. |
| `Verbs.XhdaNode.GetProcCoef` | hda-int.c:700-707 | Reads the coefficient at the current index, 0 for none, and counts on. |
| `Verbs.XhdaCodec.FindNode` | hda-int.c:1159-1172 | The first widget with the NID in chain order. |
| `Verbs.XhdaCodec.HdaCmd` | hda-int.c:1174-1201 | Decoding, dispatch and error codes of every command word: only the record of the addressed widget changes. It faults exactly for NID 0 with a handler that needs a widget. |
| `VerbLaws.SanitisedValue` | hda-int.c:149-168 | Values in range are kept, a gain out of range becomes the last step but one, a missing mute is dropped. |
| `VerbLaws.SanitisedOk` | hda-int.c:149-168 | What is stored has a mute only where there is one and a gain within the steps wherever there are steps. |
| `VerbLaws.GainInRangeExactly` | hda-int.c:161 | The stored gain is in range exactly when there are steps or none was asked for. |
| `VerbLaws.CapWordDecodes` | hda-int.c:958-971 | The setter decodes the steps and mute that the capability parameter encodes. |
| `VerbLaws.InputIndexExactly` | hda-int.c:191-224 | The index reaches the input amplifier of a mixer or selector exactly when the output side is not set too or the index is 0. |
| `VerbLaws.CommandOnCell` | hda-int.c:149-231 | A command sets the stored bytes it addresses and leaves all other channels, indices, directions and widgets alone. |
| `VerbLaws.RunOnCell` | hda-int.c:149-231 | After any sequence of commands a byte holds the sanitised value of the last command that set it. |
| `VerbLaws.GetReadsLastSet` | hda-int.c:233-286 | A get after any sequence of commands answers with that value. |
| `VerbLaws.AmpWordsRoundTrip` | hda-int.c:149-286 | Encoded as command words, setting one side and channel and reading it answers with the sanitised value. |
| `CapLaws.SetAmpPlainly` | hda-int.c:149-231 | What a set command does to every stored byte: which index and channel it means, which capabilities count, and what is stored for values in range and out of it. |
| `CapLaws.GetAmpPlainly` | hda-int.c:233-286 | What a get command answers: side, index and channel. |
| `CapLaws.AllowedComesBack` | hda-int.c:149-286 | A value allowed by the capabilities of the widget, or of the function group if it has none of its own, reads back as it was set; for the others it is said what does. |
| `CapLaws.CapParameters` | hda-int.c:958-979 | The capability parameters answer with the offset, steps, step size and mute of those same capabilities. |
| `VerbLaws.CommandSameWidgets` | hda-int.c:1174-1201 | No command changes which widgets there are, their types, capabilities or connections. |
| `VerbLaws.CommandWellFormed` | hda-int.c:149-310 | Each command keeps mutes and gains within the capabilities and selectors within the connection list. |
| `VerbLaws.RunWellFormed` | hda-int.c:149-310 | The same over every sequence of command words. |
| `VerbLaws.SelectWordsRoundTrip` | hda-int.c:288-318 | Encoded as command words, a valid selection is what the selector then answers. |
| `CoefLaws.CoefWrittenAt` | hda-int.c:663-707 | A write shows at the low half of its index and nowhere else; it is read back at the index exactly when that fits 16 bits or the value is 0. |
| `CoefLaws.WriteKeepsDistinctExactly` | hda-int.c:674-698 | The table stays free of duplicates exactly when the index fits 16 bits or its low half is new. |
| `CoefLaws.WriteAllEffect` | hda-int.c:685-698 | After a burst, however long, an index holds the last value whose index has it for its low half, or what it held before. |
| `CoefLaws.BurstRoundTripExactly` | hda-int.c:650-707 | Select, write a burst of any length, select again and read gives back the burst exactly when every value at an index past 16 bits, or overwritten when the burst comes round, is 0. |
| `CoefLaws.BurstKeepsOthers` | hda-int.c:650-707 | A burst leaves every index alone that is not the low half of one of its own. |
| `CoefLaws.BurstKeepsDistinctExactly` | hda-int.c:674-698 | A burst enters no index twice exactly when it has at most 65536 values and the low half of none of its indices past 16 bits is in the table. |
| `CoefLaws.CommandBurst` | hda-int.c:1174-1201 | The same through command words and their responses. |
| `CoefLaws.ConnectListEntry` | hda-int.c:320-337 | Each byte of a connection-list response is the entry at its place, 0 past the end. |
| `CoefLaws.ReadBackIsList` | hda-int.c:320-337 | Reading at 0, 4, 8, ... up to the reported length reconstructs the whole list. |
| `CoefLaws.ConnectWordsReadBack` | hda-int.c:1174-1201 | The same through command words: the length and every byte of the responses. |
| `CoefLaws.RunOnSelector` | hda-int.c:288-318 | After any sequence of commands a selector stands where the last valid selection put it. |
| `WordLaws.KnownExactly` | hda-int.c:1075-1172 | Which of the 4096 verbs have a handler: eight classes, and else exactly those listed. |
| `WordLaws.FaultsExactly` | hda-int.c:339-870 | Which words make the emulator itself look into a widget record that is not there. |
| `WordLaws.AnswersExactly` | hda-int.c:1174-1201 | Unknown verbs are refused with -6, NIDs without a widget with -22, both without a response and without effect; everything else succeeds. |
| `WordLaws.RootAnswers` | hda-int.c:149-979 | For NID 0 the modelled verbs and parameters answer 0. |
| `WordLaws.SettersAnswer` | hda-int.c:149-707 | So do the verbs that set something, for a widget. |
| `NodeList.Parser.CreateNode` | hda-parse.c:57-83 | Inserts before the first higher NID, refuses a duplicate, keeps the highest NID. |
| `NodeList.Parser.ParNodeCount` | hda-int.c:894-904 | First NID and number of NIDs in one word, for the root and for a widget. |
| `NodeList.CreatedExactly` | hda-parse.c:69-79 | A widget is created exactly when its NID is new. |
| `NodeList.CreatedSound` | hda-parse.c:57-83 | Each creation keeps the chain strictly ascending and adds the one NID. |
| `NodeList.FreshPlainly` | hda-parse.c:57-66 | A new record holds its NID and capabilities, and zeroes. |
| `NodeList.CreatedKeepsOthers` | hda-parse.c:57-83 | A creation adds one fresh record to the widgets and changes none of the others. |
| `NodeList.RunSound` | hda-parse.c:57-83 | Any run leaves a strictly ascending chain of exactly the requested NIDs. |
| `NodeList.SameNidsSameOrder` | hda-parse.c:69-82 | The NIDs of the chain and their order depend on the set of requested NIDs alone. |
| `NodeList.FirstRequestWins` | hda-parse.c:57-83 | Every record of a chain of creations has the capabilities of the first request for its NID. |
| `NodeList.SameChainExactly` | hda-parse.c:57-83 | Two sequences of creations build the same chain exactly when the same NIDs are requested, each with the same capabilities the first time. |
| `NodeList.ParsedStops` | hda-parse.c:87-113 | The parser reads a whole file exactly if no NID comes twice; else it stops with the chain of the widgets up to the first duplicate. |
| `NodeList.RangeIsExact` | hda-int.c:894-904 | The reported range starts at the least NID and covers all; it ends at the greatest exactly when some NID is not 0. |
| `NodeList.RootRangeIsExact` | hda-int.c:898-899 | The range of the root starts at the function group and ends at the greatest NID. |
| `NodeList.ReachableExactly` | hda-int.c:1159-1172 | The lookup finds exactly the requested NIDs, the function group, which hides a widget of its NID, and the modem function group if there is one, which a widget hides. |
| `NodeList.ParsedNidsUnique` | hda-parse.c:455-456 | A parsed codec has unique NIDs exactly when no widget takes the NID of the function group and the modem group, if any, shares its NID with neither. |
| `Text.StrtoulHex` | hda_own_proc.c:519 | A number printed with %02x is read back up to the first character that is no digit. |
| `Text.StrtoulDecimal` | hda_own_proc.c:515 | A number printed with %d is read back. |
| `Text.StrtoulSigned` | hda-parse.c:273-303 | As with strtoul, which the parser uses: a space before it is skipped and a sign counts. |
| `ConnText.PrintConnList` | hda_own_proc.c:501-524 | The header line, and the list line with a star at the selected entry of widgets that select. |
| `ConnText.ParseNodeConnections` | hda-parse.c:285-303 | Fills exactly the announced entries and moves the selection to the last starred one, or reports that the source leaves the list, which is so exactly for more than 32 entries. |
| `ConnText.EntryRoundTrip` | hda-parse.c:291-299 | A printed entry is read back with its star, up to the next. |
| `ConnText.HeaderRoundTrip` | hda-parse.c:273-279 | The header announces its number, if that is below 128, and else no entries. |
| `ConnText.ConnListRoundTrip` | hda-parse.c:273-303 | For every list of up to 32 NIDs the parser recovers the length, every NID in order and the starred index, and leaves the selection alone without a star. |
| `ConnText.SelectionComesBack` | hda_own_proc.c:508-520 | The selection comes back exactly for lists of several entries of widgets other than mixers, power widgets and volume knobs; only those lines have a star. |
| `ConnText.ListLineFits` | hda-parse.c:642-652 | The line of every list of up to 32 NIDs of one byte fits the line buffer of the parser. |
| `AmpText.PrintAmpVals` | hda_own_proc.c:81-103 | One bracket for each index with one or two values. |
| `AmpText.ParseAmpVals` | hda-parse.c:142-174 | The values and originals after a line, in either format, or the report that the source leaves its buffers. |
| `AmpText.PairRoundTrip` | hda-parse.c:154-166 | A printed pair is read back up to the next bracket. |
| `AmpText.AmpValsRoundTrip` | hda-parse.c:142-174 | For every list of up to 32 stereo pairs the parser restores each at its index, keeps the values behind, and saves the same as originals. |
| `AmpText.EmptyLineRoundTrip` | hda-parse.c:145-148 | A line without values changes neither. |
| `AmpText.MonoIsLost` | hda-parse.c:154-156 | Of a mono line the parser takes no value. |
| `AmpText.InputLineExactly` | hda-parse.c:642-703 | Through the line buffer exactly the first 20 input pairs of a line are restored; the rest of the line takes the parser out of the widget exactly when there were 20. |
| `AmpText.OutputLineExactly` | hda-parse.c:154-166 | A line of output pairs is restored as a whole exactly when it has fewer than 20; else the parser runs off the line buffer. |
| `AmpText.OldFormat` | hda-parse.c:166-170 | Two numbers without brackets are the left and the right value of the first index. |
| `DigitalText.PrintDigitalConv` | hda_own_proc.c:432-454 | The names of the set bits, in the printer's order. |
| `DigitalText.ParseNodeDigital` | hda-parse.c:203-218 | The loop terminates with the or of the bits it reads. |
| `DigitalText.NameIsRead` | hda-parse.c:191-214 | Each name is read as itself, whatever follows, except validity before text that turns it into its configuration. |
| `DigitalText.NamesReadExactly` | hda-parse.c:203-218 | Any sequence of names is read to its end, yielding the or of its bits, exactly when the tail starts with no name and is not that text. |
| `DigitalText.FlagsPlainly` | hda_own_proc.c:432-454 | Which name stands for which bit. |
| `DigitalText.DigitalRoundTrip` | hda_own_proc.c:432-454 | For every byte, printing and parsing gives it back, or-ed into the bits that were set. |
| `WidgetText.Parser.ParseLine` | hda-parse.c:464-481 | One line of a widget in each mode of the parser, or the report that the source leaves its buffers; a line without indent ends the widget. |
| `WidgetText.Parser.ParseNodeItems` | hda-parse.c:220-283 | The first heading that the line starts with decides. |
| `WidgetText.Parser.ParseField` | hda-parse.c:231-281 | What each heading does to the record and the mode; numbers are read for pins, connections, amplifier values and digital flags. |
| `WidgetText.Parser.ParseNodePcm` | hda-parse.c:348-358 | Lines of the PCM block, and the first line behind it, which is parsed as any other. |
| `WidgetText.Parser.ParseNodeConnections` | hda-parse.c:285-303 | Takes the list and leaves the widget. |
| `WidgetText.HeadingLine` | hda-parse.c:220-281 | A line printed with a heading goes to the field of that heading, inside the PCM block too. |
| `WidgetText.PieceRead` | hda-parse.c:220-283 | Every printed field is read as it was meant to be: restored, kept, or-ed in, checked, ignored, cut at the 20th pair, or out of the widget. |
| `WidgetText.PiecesRead` | hda-parse.c:640-704 | The same for any sequence of fields. |
| `WidgetText.WidgetRead` | hda_own_proc.c:651-725 | The same for a whole widget with its connection list and processing capabilities. |
| `WidgetText.StaysExactly` | hda-parse.c:700-703 | The parser is in the widget still exactly when no line of 20 stereo input pairs and no missing PCM capabilities came before. |
| `WidgetText.ProcessingLostExactly` | hda-parse.c:300-301 | The processing capabilities are lost exactly for a connection list that is not empty; all other fields come back. |
| `WidgetText.CutShort` | hda-parse.c:700-703 | Nothing printed behind a field that takes the parser out of the widget is read. |
| `LineLaws.PinLines` | hda-parse.c:220-283 | As they stand in the file: the capabilities, default and control of a pin each reach their own field and no other, the control checked against capabilities that came before. |
| `LineLaws.TextLines` | hda-parse.c:220-283 | Which lines are kept as their own text, and that the unsolicited one is passed over. |
| `LineLaws.LeavesExactly` | hda-parse.c:640-704 | An empty line or one without an indent ends the widget, and nothing else does but the list of connections. |
| `LineLaws.PcmHeading` | hda-parse.c:220-283 | When the PCM block opens. |
| `LineLaws.PcmLinesRead` | hda-parse.c:305-358 | Its three lines, each kept for itself. |
| `DumpLaws.DumpedIsHeld` | hda_own_proc.c:81-103 | The values that the printer is told by the verbs are those that the widget holds, for input and output amplifiers, pins included. |
| `DumpLaws.AmpReply` | hda-int.c:1174-1201 | They are the responses to command words. |
| `DumpLaws.DumpComesBack` | hda_own_proc.c:651-725 | Printing a stereo widget from its verbs and parsing that gives back its amplifier values up to the 20th input pair and, if the widget has a connection list, that list and its selection where one was printed. |
| `PinText.VerifiedExactly` | hda-int.c:403-476 | The check of a pin control leaves it as it is exactly if it enables nothing that the capabilities lack. |
| `PinText.VerifiedBits` | hda-int.c:403-476 | Bit by bit, what the check makes of a control: enables stay where the capabilities have them, the reference voltage unless the input is enabled and the pin lacks it. |
| `PinText.PinCapRoundTrip` | hda-parse.c:246-254 | Printed pin capabilities are read back, and never taken for those of the old printer. |
| `PinText.OldPinCap` | hda-parse.c:246-254 | What the old printer wrote is read without its stray digits, unless there are just six digits behind these. |
| `PinText.NodeRoundTrip` | hda-parse.c:87-113 | The NID and capabilities of every widget are read back from its first line, past the name of its type. |
| `DumpRoutes.HopsComeBackExactly` | hda_own_proc.c:627-725 | A widget parsed from its dump takes part in routes as the dumped one exactly if its pin control is one its capabilities allow and its selection is printed, or not needed, or the first. |
| `DumpRoutes.DumpKeepsRoutes` | hda-int.c:1383-1501 | A codec whose widgets are so parsed lists the same routes, in both directions, as the dumped one. |
| `DumpRoutes.OrderComesBack` | hda-parse.c:57-83 | Printed in ascending order the widgets come back in that order, and none stops the parser. |
| `ChmapTlv.PutMap` | snd-wrapper.c:648-664 | Writes one item exactly when it fits, and never past the buffer. |
| `ChmapTlv.PcmChmapCtlTlv` | snd-wrapper.c:628-669 | Never writes past the buffer, succeeds exactly when the container fits, and then holds the encoding of the valid maps with its length; on failure the length is not written. |
| `ChmapTlv.BytesGrow` | snd-wrapper.c:644-665 | Later maps only add bytes, so an early failure is a failure of the whole. |
| `ChmapTlv.TlvRoundTrip` | snd-wrapper.c:628-669 | A TLV reader gets exactly the valid maps, in order. |
| `ChmapTlv.FilteredExactly` | snd-wrapper.c:573-578 | The maps of no more channels than the stream has, and of a number of channels in its mask if it has one, with their multiplicity. |
| `ChmapTlv.FilteredInOrder` | snd-wrapper.c:643-645 | In the order of the table. |
| `ChmapTlv.EncodedPlainly` | snd-wrapper.c:638-668 | The words of the container, type and length in bytes, and of each item. |
| `Controls.Card.SndCtlFindId` | snd-control.c:118-132 | The first control with the identity. |
| `Controls.Card.SndCtlFindNumid` | snd-control.c:107-116 | The first control whose range holds the number. |
| `Controls.Card.SndCtlAdd` | snd-control.c:65-78 | Refuses a known identity; otherwise hands out the next numbers and appends. |
| `Controls.Card.SndCtlRemove` | snd-control.c:80-87 | Takes the control out and keeps the order of the rest. |
| `Controls.Card.SndCtlRemoveId` | snd-control.c:89-95 | Removes by identity, or reports that there is none. |
| `Controls.Card.GetAvailableIndex` | ctljack.c:34-48 | Terminates with the least index under which no control of the name, cut to 43 characters, exists. |
| `Controls.Card.SndKctlJackNew` | ctljack.c:64-88 | The new control can be added at once, and has the least index with that property. |
| `Controls.JackNameStable` | ctljack.c:50-61 | Naming a jack after a jack control changes nothing, cut names included. |
| `Controls.StepSound` | snd-control.c:65-95 | Each operation keeps ranges ascending and disjoint and identities unique. |
| `Controls.RunSound` | snd-control.c:65-95 | The same over whole runs, and no number is ever handed out twice, removals included. |
| `Controls.NumidIsUnique` | snd-control.c:107-116 | The lookup by number finds the one control that holds it. |
| `Controls.IdIsUnique` | snd-control.c:118-132 | The lookup by identity finds the one control that has it. |
| `Controls.AddThenRemove` | snd-control.c:65-95 | Adding and removing restores the list but not the numbers. |
| `Controls.AddPlainly` | snd-control.c:65-78 | A new identity goes to the end with the next numbers; a known one is refused. |
| `Controls.RemovePlainly` | snd-control.c:80-87 | All other controls remain, in their order, and no number becomes free. |
| `Controls.RemoveIdPlainly` | snd-control.c:89-95 | Exactly the control with the identity is gone. |
| `Controls.NumidPlainly` | snd-control.c:107-116 | A number is found exactly in the range that begins with the control's own and has its count. |
| `Controls.NewCardRuns` | snd-control.c:65-132 | On a new card no two controls ever have a number or an identity in common. |
| `Controls.JackNamePlainly` | ctljack.c:50-61 | A name without the ending gets it, one with it stays, and both are cut to 43 characters. |
| `RuntimePm.Device.PmRuntimeGetSync` | snd-wrapper.c:862-867 | Counts a use and wakes the device if it sleeps. |
| `RuntimePm.Device.PmRuntimeGetIfInUse` | snd-wrapper.c:869-878 | Counts a use only if there is one already. |
| `RuntimePm.Device.PmRuntimePutAutosuspend` | snd-wrapper.c:890-895 | Gives back a use and suspends after the last, if allowed. |
| `RuntimePm.Device.PmRuntimeAllow` | snd-wrapper.c:911-915 | Allows, and suspends an unused device. |
| `RuntimePm.Device.PmRuntimeForbid` | snd-wrapper.c:917-921 | Forbids, and wakes a sleeping device only if it has uses. |
| `RuntimePm.StepSoundExactly` | snd-wrapper.c:852-921 | Each call keeps the count from falling below 0, the sleep and the alternation of callbacks consistent, exactly when it is no unmatched put. |
| `RuntimePm.RunSound` | snd-wrapper.c:852-921 | The same over every balanced run. |
| `RuntimePm.BalancedExactly` | snd-wrapper.c:852-921 | A run is balanced exactly when the device is consistent, its count included, after each of its calls. |
| `RuntimePm.StepRestedExactly` | snd-wrapper.c:852-921 | Unmatched puts included, a call leaves an unused device that may sleep awake exactly when it is a get that makes up for a put too many while the device is awake and may sleep. |
| `RuntimePm.RunAlternates` | snd-wrapper.c:852-921 | Balanced or not, no run suspends a device in use or makes a callback twice in a row. |
| `RuntimePm.RunRestedExactly` | snd-wrapper.c:852-921 | Over any run an unused device that may sleep is asleep after every call exactly when there is no such get. |
| `RuntimePm.UnmatchedPut` | snd-wrapper.c:862-915 | Put, allow, get on a new device leave it awake and unused. |
| `RuntimePm.AwakeForUses` | snd-wrapper.c:852-921 | After a balanced run the device sleeps through no use and, while allowed, is awake only for one. |
| `RuntimePm.StepPlainly` | snd-wrapper.c:852-921 | Every call: what it does to count, permission and sleep, which callback it makes, and what it answers. |
| `RuntimePm.ForbidForbids` | snd-wrapper.c:917-921 | From forbid to allow nothing is suspended. |
| `RuntimePm.NewDeviceRuns` | snd-wrapper.c:852-921 | Callbacks of a new device over any run come by turns, suspend first. |

## Left out

- Shell commands, logging, colours, option parsing, file and process handling, the test scripts: user interface and I/O.
- Kernel driver code that is not in the repository: device callbacks are a register map or a list of values.
- Extended verbs, parameters and commands and the codec fixups (hda-spec.c): data; a fixup may shrink a connection list below the selection, so the laws start from a well-formed codec.
- Verbs with a plain field behind them (GPIO, beep, EAPD, stream format, digital converter, power state and the like): `OtherVerb`, whose response is a parameter.
- Verbs.XhdaCodec.HdaCmd: says nothing of the response where it reports a fault.
- Verbs.XhdaNode.SetProcCoef: does not model the wrap-around of the 32-bit index after 4294967296 accesses.
- Connection lists longer than the 32 entries of a widget record: the parser announces up to 127 (hda-parse.c:275) and writes past it, which the model reports; the codec's own lists have at most 32.
- Routes: what becomes of the emulator once a search has left its buffer; the lists are those of a buffer with room for one more.
- CoefLaws.ConnectListEntry: is about NIDs of one byte, the only ones whose packed bytes do not overlap.
- VMaster: 32-bit overflow of a volume, failing driver callbacks, allocation failure, the hook, freeing followers and the TLV callback; what a follower's record holds once it was overrun, and channels behind the second.
- VMaster.RunSound: is about followers whose values are cached; `UncachedForgets` says what becomes of the others.
- RegMap: allocation failure and freeing; positive error codes of a device.
- RegMap.CacheIsTransparent: is about a device whose accesses succeed, since a cached read does not fail when the device would; `ReadIsCurrent` covers failing devices.
- WidgetText.Parser.ParseField: the numbers of amplifier capabilities, power, processing and digital category are kept as the text that they are read from; a malformed line of amplifier capabilities, which the printer does not write, stops the source's parser.
- WidgetText.Parser.ParseLine: follows the record of one widget; the lines of a codec's root are not part of it, and the one that opens the next widget is `PinText.NodeRead`.
- PinText.NodeRead: does not model a sign or a second 0x prefix of %x; `PinText.PinCapOf` neither for the digits of the old printer.
- DumpLaws.DumpComesBack: is about stereo widgets with both amplifiers; `WidgetText.WidgetRead` covers the others, of which mono values are lost.
- Text.Strtoul: does not model saturation of numbers beyond 64 bits.
- AmpText.ScanByte: does not model a sign or a second 0x prefix inside the two characters of %02x.
- NodeList: one codec only, since the source keeps the chain when it skips a codec (hda-parse.c:630-638); NIDs are two hexadecimal digits.
- ChmapTlv.PcmChmapCtlTlv: does not model faults of the user copy; maps have at most the 15 positions of their record.
- Controls: `snd_ctl_rename_id`, which overwrites the numbers, the activation flag, notification, and wrap-around of the number counter.
- RuntimePm: forced suspend and resume, the calls that only count, callbacks that call back, and a driver that comes or goes in between.
- Lock checkers, allocator tracking, LED and quirk stubs, pin-configuration and verb decoding tools, sysfs parsing: each is settled by reading one branch or a finite table.
