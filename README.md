# A verified model of the tzod game core and its UI toolkits

This project models, in Dafny, the parts of tzod (a top-down tank game) that
hold state or encode data. Each Dafny file follows one source file:

- **passability_field.dfy** (`game/src/tank/Level.cpp`, the `Field` and `FieldCell`
  classes): the passability grid used for path finding. A cell stores the
  bodies that cover it and the largest passability among them. Border cells
  are pinned to 0xFF, which means impassable; the source loses that pin when
  a body is added to a border cell, and the model keeps it (see Findings). `ProcessObject` adds a body to,
  or removes it from, every cell its bounding circle covers.
- **level.dfy** (`game/src/tank/Level.cpp`, the `Level` class): clearing and
  resizing the world; the pause counter and the sound pause it drives; the
  `net_rand` generator; the time-step loop. That loop smooths frame times, sends
  local controls ahead by the configured latency, and consumes the time buffer
  one control packet per step. It also covers the local client's FIFO
  control queue.
- **actor.dfy** (`game/src/tank/gc/Actor.cpp`): the grid contexts of an actor.
  On every move the actor enters and leaves the per-location object lists of
  each grid it belongs to. The invariant kept is that the actor is listed
  exactly once, at its location, in each grid it has entered, and in no
  other list of its grids.
- **camera.dfy** (`game/src/tank/gc/Camera.cpp`): split-screen viewports and
  zoom in `UpdateLayout`, and camera shake.
- **byte_map.dfy**, **map_codec.dfy**, **map_format.dfy**, **map_file.dfy**
  (`game/src/mf/MapFile.cpp`, `game/mf/inc/MapFile.h`): the chunked binary map
  format, in three layers:
  - little-endian integers, floats and 16-bit-length strings;
  - the header with its typed attributes, class definitions and object records;
  - the `MapFile` object that writes and reads them.
  Every writer is proved to round-trip through the matching reader.
- **config.dfy**, **config_text.dfy** (`engine/config/ConfigBase.cpp`): the
  dynamically typed configuration variables (`ConfVar` and its number, bool,
  string, array and table kinds) with their change notifications, and how
  strings and table keys are written as Lua text.
- **atlas_packer.dfy** (`engine/video/AtlasPacker.cpp`): the skyline rectangle
  packer used to build texture atlases.
- **console.dfy** (`engine/ui/Console.cpp`): the console's command history and
  its keyboard handling.
- **layout_context.dfy**, **input_context.dfy** (`game/src/libui/LayoutContext.cpp`,
  `game/src/libui/InputContext.cpp`):
  - what a window inherits from its parent during layout;
  - the input-transform stack;
  - pointer capture and routing;
  - focus propagation along the routed path.
- **button_state.dfy**, **libui_button.dfy**, **ui_button.dfy**
  (`game/src/libui/Button.cpp`, `engine/ui/Button.cpp`):
  - the event-driven button of the older toolkit, whose visual state is stored
    and whose clicks come from capture-and-release;
  - the stateless button of the newer toolkit, whose state is derived on every
    frame;
  - the check-box sprite frame.
- **wrappers.dfy**: `Option` and `Result`.

The source's floats are modelled as reals. C++ `int` truncation, 32-bit
wrap-around and 16-bit length fields are written out where the source
depends on them.

## Model

| member | source | states |
|---|---|---|
| PassabilityField.MaxPassability | game/src/tank/Level.cpp:49-58 | the result bounds every body's passability, is attained by one of them, and is 0 for an empty cell |
| PassabilityField.FieldCell.UpdateProperties | game/src/tank/Level.cpp:49-58 | the cell keeps its coordinates and bodies, and its property becomes the largest passability among them |
| PassabilityField.FieldCell.AddObject | game/src/tank/Level.cpp:60-86 | the body is appended to the cell's list, the property is recomputed over the new list, and every resident stays passable-positive |
| PassabilityField.FieldCell.RemoveObject | game/src/tank/Level.cpp:88-116 | the list loses exactly the one copy of the body, keeping the others in order; its length drops by one; the property is recomputed |
| PassabilityField.CopyOthers | game/src/tank/Level.cpp:102-112 | the copy loop fills a fresh array of length n-1 with exactly the other bodies, in order |
| PassabilityField.WithoutMultiset | game/src/tank/Level.cpp:102-112 | removing a body drops all its copies and keeps every other body's count |
| PassabilityField.WithoutLength | game/src/tank/Level.cpp:102-112 | removing a body shortens the list by the number of its copies |
| PassabilityField.AddThenRemove | game/src/tank/Level.cpp:60-116 | adding a body that was absent and then removing it gives back the original list |
| PassabilityField.Trunc | game/src/tank/Level.cpp:179-182 | C++ float-to-int truncation: the integer is within one of the value, on the side of zero |
| PassabilityField.TruncMonotone | game/src/tank/Level.cpp:179-182 | truncation preserves order |
| PassabilityField.Cover | game/src/tank/Level.cpp:174-182 | the covered cell range of a circle is clamped inside the grid |
| PassabilityField.Processed | game/src/tank/Level.cpp:187-195 | definition: the corrected cell update, with the border pinned at 0xFF after an add and after a remove |
| PassabilityField.ProcessedAsWritten | game/src/tank/Level.cpp:187-195 | definition: the cell update as written, which pins the border only after a remove (see Findings) |
| PassabilityField.CentreCovered | game/src/tank/Level.cpp:174-182 | the cell holding the circle's centre lies in the covered range |
| PassabilityField.UpdateCell | game/src/tank/Level.cpp:187-196 | one cell's add or remove, corrected so that a border cell is pinned at 0xFF after an add as well as after a remove |
| PassabilityField.ProcessedKeepsCell | game/src/tank/Level.cpp:187-196 | adding or removing a body keeps a cell consistent: border cells stay 0xFF, inner cells hold the maximum passability |
| PassabilityField.ProcessedRoundTrip | game/src/tank/Level.cpp:187-196 | adding a body to a consistent cell and then removing it restores the cell exactly |
| PassabilityField.AddOnBorderUnpinsIt | game/src/tank/Level.cpp:187-196 | as written, adding a body to a corner cell drops its 0xFF pin (see Findings) |
| PassabilityField.Field.constructor | game/src/tank/Level.cpp:120-129 | a new field has no cells and zero size |
| PassabilityField.Field.Clear | game/src/tank/Level.cpp:136-149 | the cells are released and the size becomes zero |
| PassabilityField.Field.Resize | game/src/tank/Level.cpp:151-170 | a fresh width-by-height grid of empty cells, with the session id reset |
| PassabilityField.Field.At | game/src/tank/Level.cpp:201-205 | an in-grid cell carries its coordinates and its expected property; outside the grid the shared edge cell is impassable and empty |
| PassabilityField.Field.ProcessCell | game/src/tank/Level.cpp:186-196 | only the addressed cell changes, and it changes as the corrected UpdateCell says |
| PassabilityField.Field.ProcessObject | game/src/tank/Level.cpp:172-198 | every cell in the covered range is processed by the corrected cell update and every other cell is unchanged |
| Level.LocationCount | game/src/tank/Level.cpp:287-288 | the number of locations is the least count whose LOCATION_SIZE span covers the level's cells |
| Level.RandOf | game/src/tank/Level.cpp:888-891 | a net_rand value lies in 0..RAND_MAX |
| Level.NextSeed | game/src/tank/Level.cpp:888-891 | definition: one step of the linear congruential generator, wrapping modulo 2^32 |
| Level.RandStreamSplit | game/src/tank/Level.cpp:888-891 | m+n draws are m draws followed by n draws from the seed reached after m |
| Level.FRandOf | game/src/tank/Level.cpp:893-896 | net_frand(max) lies in 0..max |
| Level.PauseKeepsSoundInSync | game/src/tank/Level.cpp:797-816 | after any pause or unpause, the sound is paused exactly when the combined pause count is positive |
| Level.PauseRoundTrip | game/src/tank/Level.cpp:797-816 | pausing then unpausing restores the counter, and the two sound commands cancel out |
| Level.PauseStep | game/src/tank/Level.cpp:797-816 | definition: the pause counter after one pause or unpause, and the sound command it issues when the combined count leaves or reaches zero |
| Level.SumAtLeast | game/src/tank/Level.cpp:1222-1227 | a lower bound on every sample bounds the sum |
| Level.SumAtMost | game/src/tank/Level.cpp:1222-1227 | an upper bound on every sample bounds the sum |
| Level.MeanAtLeast | game/src/tank/Level.cpp:1222-1227 | the smoothed frame time is at least the smallest bound of the samples |
| Level.MeanAtMost | game/src/tank/Level.cpp:1222-1227 | the smoothed frame time is at most the largest bound of the samples |
| Level.Mean | game/src/tank/Level.cpp:1222-1227 | the averaging loop returns the arithmetic mean of the window |
| Level.LastN | game/src/tank/Level.cpp:1216-1220 | the window is the last min(n, window) samples, in order |
| Level.TrimToWindow | game/src/tank/Level.cpp:1216-1220 | the pop-front loop leaves exactly the last `window` samples |
| Level.AbstractClient.Send | game/src/tank/Level.cpp:1541-1546 | the control packet joins the end of the queue |
| Level.AbstractClient.Recv | game/src/tank/Level.cpp:1550-1563 | the oldest packet comes out first; an empty queue yields false and stays empty |
| Level.AbstractClient.Reset | game/src/tank/Level.cpp:351 | the queue is emptied |
| Level.RunQueueFifo | game/src/tank/Level.cpp:1522-1563 | over any sequence of sends and receives, what was received followed by what remains is what was queued followed by what was sent |
| Level.Level.constructor | game/src/tank/Level.cpp:240-271 | a new level is unpaused, empty, with seed 1 and a fresh field and client |
| Level.Level.Clear | game/src/tank/Level.cpp:311-352 | the counters, timers, flags and client queue are reset, and the seed and location grid are kept |
| Level.Level.Resize | game/src/tank/Level.cpp:278-309 | the location counts cover the level, the size is in pixels, and the field becomes an empty (X+1)-by-(Y+1) grid |
| Level.Level.PauseLocal | game/src/tank/Level.cpp:797-816 | the pause counter and the sound follow PauseStep |
| Level.Level.NetRand | game/src/tank/Level.cpp:888-891 | the seed advances one step and the result is drawn from the new seed, within 0..RAND_MAX |
| Level.Level.HitLimit | game/src/tank/Level.cpp:354-360 | the limit flag is set, the pause count goes up by one, and the sound pauses if the game was running |
| Level.Level.EndRoundIfDue | game/src/tank/Level.cpp:1297-1300 | the round ends, raising the pause and pausing the sound if the game was running, exactly when a time limit is set and the level time has reached it |
| Level.Level.Step | game/src/tank/Level.cpp:1117-1186 | one step advances the step count and time by dt, consumes dt of the buffer, and applies the controls unless the world is frozen |
| Level.Level.FilterDt | game/src/tank/Level.cpp:1214-1228 | the frame time enters the window, which keeps its last entries, and the result is their mean (never negative) |
| Level.Level.SendLocal | game/src/tank/Level.cpp:1233-1259 | local controls are sent exactly while no more than `latency` packets are in flight |
| Level.Level.ConsumeBuffer | game/src/tank/Level.cpp:1262-1272 | one step is taken exactly when a packet is queued and time is buffered; it consumes one packet; the buffer becomes the old buffer plus the boosted frame time, capped at two frames, less the step taken; the step count and dropped time follow the step |
| Level.Level.TimeStep | game/src/tank/Level.cpp:1188-1314 | a paused or limited game does not advance, whatever the editor flag and frame time; otherwise it runs the send-and-consume loop and ends the round, raising the pause, once time reaches the time limit |
| Level.Level.RunFrame | game/src/tank/Level.cpp:1209-1314 | a frame leaves the buffer capped and the packets in flight bounded by latency+1, time never goes back, and the round ends, with the pause raised and the sound paused, exactly when time reaches a set time limit |
| Actor.Grid.constructor | game/src/tank/Level.cpp:292-299 | an object grid resized to the level's locations holds an empty list at every location |
| Actor.RemoveFirst | game/src/tank/gc/Actor.cpp:64-69 | erasing an actor from a list removes one copy and keeps the rest; an absent actor leaves the list alone |
| Actor.EnterThenLeave | game/src/tank/gc/Actor.cpp:64-85 | entering a list and then leaving it restores the list |
| Actor.RelistedMovesActor | game/src/tank/gc/Actor.cpp:43-47 | a move takes the actor out of the old location's list and into the new one's, and touches no other list |
| Actor.Cell | game/src/tank/gc/Actor.cpp:37-41 | the location index is clamped to the grid, and inside the level it is the cell holding the position |
| Actor.TruncClampIsFloorClamp | game/src/tank/gc/Actor.cpp:37-41 | the truncate-then-clamp of the source equals floor-then-clamp |
| Actor.Actor.constructor | game/src/tank/gc/Actor.cpp:11-16 | a new actor sits at the origin in no context |
| Actor.Actor.EnterContext | game/src/tank/gc/Actor.cpp:80-85 | the actor is appended to its location's list in that grid, and the context is marked entered |
| Actor.Actor.LeaveContext | game/src/tank/gc/Actor.cpp:64-69 | the actor is removed from its location's list in that grid, and the context is marked left |
| Actor.Actor.LeaveAllContexts | game/src/tank/gc/Actor.cpp:56-62 | every grid loses the actor at its location; no other list changes |
| Actor.Actor.EnterAllContexts | game/src/tank/gc/Actor.cpp:71-78 | the actor moves to the location and is listed there in every grid |
| Actor.Actor.AddContext | game/src/tank/gc/Actor.cpp:87-94 | the grid is added at the front of the contexts, with the actor listed at its location |
| Actor.Actor.RemoveContext | game/src/tank/gc/Actor.cpp:96-110 | the grid's context is removed from the list, and the actor leaves the grid's list if it had entered it |
| Actor.Actor.Unregister | game/src/tank/gc/Actor.cpp:104-105 | the context, which the actor has left, is dropped from the list and the others keep their order |
| Actor.Actor.MoveTo | game/src/tank/gc/Actor.cpp:35-50 | the position and location are updated; the lists are untouched if the location is the same, otherwise the actor is relisted in every grid |
| Actor.Actor.Destroy | game/src/tank/gc/Actor.cpp:23-26 | the actor leaves every context and is then in no list of any of its grids |
| Camera.Viewports | game/src/tank/gc/Camera.cpp:145-184 | one viewport per camera; it fails only for more than four cameras on a screen the level does not fit |
| Camera.Centred | game/src/tank/gc/Camera.cpp:145-157 | definition: the level-sized viewport in the middle of a screen larger than the level |
| Camera.Split | game/src/tank/gc/Camera.cpp:163-182 | definition: the viewports of one to four split-screen cameras |
| Camera.Zoom | game/src/tank/gc/Camera.cpp:187-188 | definition: split-screen cameras zoom to one half for three or four cameras, otherwise to one |
| Camera.CentredFitsLevel | game/src/tank/gc/Camera.cpp:145-157 | the centred viewport has the level's size and shares the spare pixels evenly |
| Camera.SplitTiles | game/src/tank/gc/Camera.cpp:163-182 | split viewports lie on the screen and are pairwise at least two pixels apart |
| Camera.SplitSpansScreen | game/src/tank/gc/Camera.cpp:163-182 | the split viewports reach all four screen edges |
| Camera.ShakeTime | game/src/tank/gc/Camera.cpp:225-231 | the shake time grows by half the level, capped at half the respawn delay |
| Camera.Camera.constructor | game/src/tank/gc/Camera.cpp:28-57 | a new camera is still, unzoomed and seeded |
| Camera.Camera.Shake | game/src/tank/gc/Camera.cpp:225-231 | the shake time follows ShakeTime, and a still camera gets a new seed |
| Camera.UpdateLayout | game/src/tank/gc/Camera.cpp:134-195 | every camera gets its viewport and, when split, its zoom; the shake state is untouched; nothing changes when no layout exists |
| ByteMap.LessIrreflexive | game/mf/inc/MapFile.h:92-104 | the key order of std::map is irreflexive |
| ByteMap.LessTransitive | game/mf/inc/MapFile.h:92-104 | the key order is transitive |
| ByteMap.LessTotal | game/mf/inc/MapFile.h:92-104 | any two distinct keys are ordered |
| ByteMap.Keys | game/mf/inc/MapFile.h:92-104 | the key set is exactly the keys of the entries |
| ByteMap.Lookup | game/src/mf/MapFile.cpp:221-252 | a lookup fails exactly for an absent key |
| ByteMap.InsertKeys | game/src/mf/MapFile.cpp:255-271 | insertion adds the key to the key set |
| ByteMap.InsertSorted | game/src/mf/MapFile.cpp:255-271 | insertion keeps the entries sorted by key |
| ByteMap.LookupInsertSame | game/src/mf/MapFile.cpp:255-271 | the inserted key maps to the new value |
| ByteMap.LookupInsertOther | game/src/mf/MapFile.cpp:255-271 | no other key changes |
| ByteMap.InsertAllSorted | game/src/mf/MapFile.cpp:64-79 | inserting the keys of an ordered map after all existing keys appends them |
| MapCodec.LittleEndianRoundTrip | game/src/mf/MapFile.cpp:176-199 | decoding n little-endian bytes of a value below 256^n gives it back |
| MapCodec.U16RoundTrip | game/src/mf/MapFile.cpp:182-219 | 16-bit lengths round-trip |
| MapCodec.U32RoundTrip | game/src/mf/MapFile.cpp:6-10 | 32-bit words round-trip |
| MapCodec.I32RoundTrip | game/src/mf/MapFile.cpp:192-199 | 32-bit signed ints round-trip through two's complement |
| MapCodec.ToInt32 | game/src/mf/MapFile.cpp:397-411 | the int conversion keeps every in-range value |
| MapCodec.ToUint32 | game/src/mf/MapFile.cpp:6-10 | the unsigned conversion keeps every in-range value |
| MapCodec.ReadInt | game/src/mf/MapFile.cpp:192-199 | reads 4 bytes, and fails with end-of-file exactly when fewer remain |
| MapCodec.ReadFloat | game/src/mf/MapFile.cpp:201-207 | reads 4 bytes, and fails exactly when fewer remain |
| MapCodec.ReadString | game/src/mf/MapFile.cpp:209-219 | a length below 2^16, then that many bytes, all inside the data |
| MapCodec.Cut | game/src/mf/MapFile.cpp:182-190 | the stored length is the real length mod 2^16, so a short string is kept whole |
| MapCodec.Str | game/src/mf/MapFile.cpp:182-190 | a written string is 2 bytes of length plus the length mod 2^16 |
| MapCodec.ReadIntAt | game/src/mf/MapFile.cpp:192-199 | reading an int where one was written gives it back and moves past it |
| MapCodec.ReadFloatAt | game/src/mf/MapFile.cpp:201-207 | reading a float where one was written gives back its bits |
| MapCodec.ReadStringAt | game/src/mf/MapFile.cpp:182-219 | reading a written string gives back its cut-to-16-bits form |
| MapCodec.MakeSignature | game/mf/inc/MapFile.h:50-53 | a signature is the four characters' bytes read as a little-endian word |
| MapCodec.SignatureValues | game/mf/inc/MapFile.h:68-76 | each chunk type constant is the signature of its four-letter tag |
| MapCodec.ReadChunkHeader | game/src/mf/MapFile.cpp:6-10 | a chunk header is read exactly when 8 bytes remain |
| MapCodec.ReadChunkHeaderAt | game/mf/inc/MapFile.h:86-90 | a written chunk header reads back |
| MapFormat.Value.TypeCode | game/mf/inc/MapFile.h:79-84 | every value has one of the three data types |
| MapFormat.EncodeValue | game/src/mf/MapFile.cpp:312-366 | the corrected encoding of an object attribute value, whose length is the value's stored length |
| MapFormat.NewProperty | game/mf/inc/MapFile.h:127-144 | a property is created exactly for a known data type, holding that type; otherwise "Unknown data type" |
| MapFormat.EncodeValueAsWritten | game/src/mf/MapFile.cpp:312-366 | the written value bytes, which agree with the corrected encoding for every string shorter than 2^16 |
| MapFormat.ReadValue | game/src/mf/MapFile.cpp:494-510 | a value of the requested type, read forward within the data, or end-of-file |
| MapFormat.ReadValueAt | game/src/mf/MapFile.cpp:312-366 | a written value reads back as its stored form |
| MapFormat.LongStringMisaligns | game/src/mf/MapFile.cpp:348-366 | as written, a string of 65536 zero bytes reads back empty and shifts the next value (see Findings) |
| MapFormat.ReadValuesAt | game/src/mf/MapFile.cpp:494-510 | an object's written values read back into its class's properties, in order |
| MapFormat.ReadPropDefs | game/src/mf/MapFile.cpp:466-484 | n property definitions read as n blank properties |
| MapFormat.ReadPropDefsAt | game/src/mf/MapFile.cpp:424-484 | written property definitions read back |
| MapFormat.ReadDefinition | game/src/mf/MapFile.cpp:458-486 | a class definition reads as blank properties, moving forward |
| MapFormat.ReadDefinitionAt | game/src/mf/MapFile.cpp:424-486 | a written class definition reads back |
| MapFormat.NextChunk | game/src/mf/MapFile.cpp:450-521 | reading stops at end of data; a found object has a valid class index; classes are only added |
| MapFormat.SkipsOtherChunk | game/src/mf/MapFile.cpp:514-517 | an unknown chunk is skipped whole |
| MapFormat.KnownClassRoundTrip | game/src/mf/MapFile.cpp:442-510 | an object of a known class reads back into that class with its written values |
| MapFormat.DefinitionChunkAt | game/src/mf/MapFile.cpp:424-486 | a written definition chunk adds its class and is passed over whole |
| MapFormat.NewClassRoundTrip | game/src/mf/MapFile.cpp:424-521 | the first object of a new class reads back as one more class holding its values |
| MapFormat.DefinitionChunk | game/src/mf/MapFile.cpp:424-436 | a class definition chunk is an 8-byte header followed by its payload |
| MapFormat.ObjectChunk | game/src/mf/MapFile.cpp:443-447 | an object chunk is an 8-byte header followed by the object buffer |
| MapFormat.ChunkStep | game/src/mf/MapFile.cpp:456-519 | one chunk of the read loop: a found object has a valid class index, classes are only added, and a chunk that is not an object keeps the current class |
| MapFormat.FindProperty | game/src/mf/MapFile.cpp:273-310 | the index of the first property with that name, or none exactly when no property has it |
| MapFormat.GetObjectAttribute | game/src/mf/MapFile.cpp:273-310 | absent names give nothing; a present name with the requested type gives its value; the wrong type is a bad-variant error |
| MapFormat.ExchangeLoadAbsent | game/mf/inc/MapFile.h:12-43 | loading an absent attribute keeps the default |
| MapFormat.ExchangeLoadPresent | game/mf/inc/MapFile.h:12-43 | loading a present attribute gives its value |
| MapFormat.GetAfterRead | game/src/mf/MapFile.cpp:273-310 | after reading an object, each attribute gives the value written for it |
| MapFormat.GetAttr | game/src/mf/MapFile.cpp:221-252 | a map attribute of a type is found exactly when its name is among that type's keys |
| MapFormat.SetAttrValid | game/src/mf/MapFile.cpp:255-271 | setting an attribute keeps the three attribute maps sorted |
| MapFormat.SetAttr | game/src/mf/MapFile.cpp:255-271 | definition: setting an attribute inserts the name into the map of the value's type |
| MapFormat.GetSetSame | game/src/mf/MapFile.cpp:221-271 | an attribute reads back as it was set |
| MapFormat.GetSetOther | game/src/mf/MapFile.cpp:221-271 | setting one attribute leaves every other name and type alone |
| MapFormat.AttrSizeCounts | game/src/mf/MapFile.cpp:129-157 | the chunk size written for an attribute is its byte count after the 12-byte prefix |
| MapFormat.HeaderRoundTrip | game/src/mf/MapFile.cpp:25-167 | parsing a written header gives back the attributes and stops right after "}hdr" |
| MapFormat.HeaderBytes | game/src/mf/MapFile.cpp:107-167 | definition: the header as written, "hdr{", the attributes of each type in key order, "}hdr" |
| MapFormat.AttribBody | game/src/mf/MapFile.cpp:37-96 | the body of one header chunk moves forward, and sets an attribute only from an attribute chunk of a supported type |
| MapFormat.ParseHeaderChunks | game/src/mf/MapFile.cpp:33-99 | definition: the corrected header loop up to "}hdr", with a missing chunk header reported as end of file |
| MapFormat.ParseHeader | game/src/mf/MapFile.cpp:18-101 | definition: the read-mode constructor, which demands "hdr{" first and then runs the corrected header loop |
| MapFormat.TruncatedHeaderLoopsForever | game/src/mf/MapFile.cpp:33-99 | a lone "hdr{" chunk is an end-of-file error here, but the loop as written repeats the same state (see Findings) |
| MapFormat.HeaderPassAsWritten | game/src/mf/MapFile.cpp:33-99 | definition: one pass of the header loop as written, which keeps the stale chunk header when none can be read |
| MapFiles.ReadPropDefsLoop | game/src/mf/MapFile.cpp:466-484 | the loop computes ReadPropDefs |
| MapFiles.ReadDefinitionChunk | game/src/mf/MapFile.cpp:458-486 | the loop computes ReadDefinition |
| MapFiles.ReadObjectValues | game/src/mf/MapFile.cpp:494-510 | the loop computes ReadValues |
| MapFiles.NextChunkLoop | game/src/mf/MapFile.cpp:454-520 | the chunk loop computes NextChunk |
| MapFiles.EncodeDefinition | game/src/mf/MapFile.cpp:424-437 | the bytes are the class's definition chunk |
| MapFiles.EncodeObject | game/src/mf/MapFile.cpp:424-447 | a new class's definition chunk comes before the object chunk |
| MapFiles.ReadHeader | game/src/mf/MapFile.cpp:25-99 | the header loop computes ParseHeader, which reports a missing end of header as an end-of-file error, and yields sorted attribute maps |
| MapFiles.SetAllValid | game/src/mf/MapFile.cpp:25-99 | recording any header attributes keeps the maps sorted |
| MapFiles.MapFile.ForWrite | game/src/mf/MapFile.cpp:18-24 | a writer starts with an empty stream, no attributes and no classes |
| MapFiles.MapFile.ForRead | game/src/mf/MapFile.cpp:25-99 | a reader starts after the header with its attributes and no classes |
| MapFiles.MapFile.Open | game/src/mf/MapFile.cpp:18-101 | opening succeeds exactly when the header parses, and the failure is the parse error |
| MapFiles.MapFile.SetMapAttribute | game/src/mf/MapFile.cpp:255-271 | the attribute set is updated by SetAttr |
| MapFiles.MapFile.GetMapAttribute | game/src/mf/MapFile.cpp:221-252 | a found attribute has the requested type |
| MapFiles.MapFile.WriteAttrChunks | game/src/mf/MapFile.cpp:129-157 | the attribute chunks are appended to the stream |
| MapFiles.MapFile.WriteHeader | game/src/mf/MapFile.cpp:107-167 | the header bytes are appended to the stream |
| MapFiles.MapFile.BeginObject | game/src/mf/MapFile.cpp:375-412 | the header is written once; a new class name gets the next index, a known one reuses its index, and the buffer starts with the index |
| MapFiles.MapFile.WriteHeaderOnce | game/src/mf/MapFile.cpp:379-383 | the header goes out only before the first object |
| MapFiles.MapFile.AddClass | game/src/mf/MapFile.cpp:397-404 | a new class is appended and indexed by its name |
| MapFiles.MapFile.ReuseClass | game/src/mf/MapFile.cpp:405-409 | a known class keeps its index and definition |
| MapFiles.MapFile.SetObjectAttribute | game/src/mf/MapFile.cpp:312-366 | the value is encoded into the buffer with the corrected encoding, and a new class gains the property |
| MapFiles.MapFile.WriteCurrentObject | game/src/mf/MapFile.cpp:414-448 | the object chunk is appended, preceded by its class's definition when the class is new |
| MapFiles.MapFile.AppendObject | game/src/mf/MapFile.cpp:424-447 | the stream grows by the definition chunk when the class is new, then the object chunk |
| MapFiles.MapFile.NextObject | game/src/mf/MapFile.cpp:450-521 | the cursor, classes and current class follow NextChunk, and an error leaves them unchanged |
| MapFiles.MapFile.GetObjectAttribute | game/src/mf/MapFile.cpp:273-310 | a found attribute has the requested type, and a type clash is a bad-variant error |
| Config.Default | engine/config/ConfigBase.cpp:184-188 | a fresh value of each type is zero, false, empty or an empty array or table |
| Config.Retyped | engine/config/ConfigBase.cpp:106-127 | a value of the wanted type is kept, and any other becomes that type's default |
| Config.Truncate | engine/config/ConfigBase.cpp:231-235 | GetInt truncates toward zero |
| Config.TruncateInt | engine/config/ConfigBase.cpp:231-244 | an integer stored by SetInt is read back by GetInt |
| Config.Obtain | engine/config/ConfigBase.cpp:678-707 | the entry exists afterwards with the wanted type; a well-typed entry is kept; no other entry changes |
| Config.ObtainEvents | engine/config/ConfigBase.cpp:678-707 | a change is announced exactly when the entry was missing or retyped |
| Config.WithDefault | engine/config/ConfigBase.cpp:709-765 | a well-typed entry is kept; otherwise the default is stored |
| Config.GetAfterSet | engine/config/ConfigBase.cpp:709-772 | a value that was set is read back regardless of the default |
| Config.RemoveUndoesObtain | engine/config/ConfigBase.cpp:678-707 | removing an obtained entry restores the original table |
| Config.Renamed | engine/config/ConfigBase.cpp:865-892 | renaming succeeds exactly when the old name exists and the new one is free (or the same); the value moves |
| Config.RenameBack | engine/config/ConfigBase.cpp:865-892 | renaming back restores the table |
| Config.Resized | engine/config/ConfigBase.cpp:517-533 | resizing keeps the common prefix and pads with nil |
| Config.ResizeBack | engine/config/ConfigBase.cpp:517-533 | resizing back restores the array |
| Config.RetypeAt | engine/config/ConfigBase.cpp:420-434 | only the indexed element changes, and only when its type differs |
| Config.ConfVar.constructor | engine/config/ConfigBase.cpp:84-88 | a new variable is nil, unfrozen and has announced nothing |
| Config.ConfVar.SetType | engine/config/ConfigBase.cpp:106-127 | the value becomes Retyped |
| Config.ConfVar.Freeze | engine/config/ConfigBase.cpp:175-178 | the frozen flag is set as given |
| Config.ConfVar.SetNumber | engine/config/ConfigBase.cpp:206-229 | the number is stored and announced only when it changed |
| Config.ConfVar.SetInt | engine/config/ConfigBase.cpp:236-244 | the integer is stored and reads back through GetInt |
| Config.ConfVar.SetFlag | engine/config/ConfigBase.cpp:286-291 | the flag is stored and announced |
| Config.ConfVar.SetText | engine/config/ConfigBase.cpp:336-355 | the string is stored and announced |
| Config.ConfVar.Find | engine/config/ConfigBase.cpp:657-661 | an entry is found exactly when the name is present |
| Config.ConfVar.GetVar | engine/config/ConfigBase.cpp:678-707 | the table becomes Obtain; the entry returned has the wanted type; changes are announced |
| Config.ConfVar.GetWithDefault | engine/config/ConfigBase.cpp:709-765 | the table becomes WithDefault, and a well-typed entry is returned unchanged |
| Config.ConfVar.SetEntry | engine/config/ConfigBase.cpp:717-772 | the entry is stored under its name |
| Config.ConfVar.Clear | engine/config/ConfigBase.cpp:790-796 | the table is emptied and the change announced |
| Config.ConfVar.Remove | engine/config/ConfigBase.cpp:814-826 | the entry is removed, which is reported and announced exactly when it existed |
| Config.ConfVar.Rename | engine/config/ConfigBase.cpp:865-892 | the table becomes Renamed, and a real rename is announced |
| Config.ConfVar.GetElement | engine/config/ConfigBase.cpp:420-434 | the element is retyped in place when needed and returned with the wanted type |
| Config.ConfVar.Resize | engine/config/ConfigBase.cpp:517-533 | the array becomes Resized, announced when its length changes |
| Config.ConfVar.EnsureIndex | engine/config/ConfigBase.cpp:511-515 | the array grows just enough to hold the index |
| Config.ConfVar.PushBack | engine/config/ConfigBase.cpp:561-569 | a default element is appended |
| Config.ConfVar.PushFront | engine/config/ConfigBase.cpp:578-586 | a default element is prepended |
| Config.ConfVar.PopBack | engine/config/ConfigBase.cpp:571-576 | the last element is dropped |
| Config.ConfVar.PopFront | engine/config/ConfigBase.cpp:554-559 | the first element is dropped |
| Config.ConfVar.RemoveAt | engine/config/ConfigBase.cpp:547-552 | the indexed element is removed and the others keep their order |
| ConfigText.Quoted | engine/config/ConfigBase.cpp:357-385 | a written string is enclosed in double quotes |
| ConfigText.EscapeChar | engine/config/ConfigBase.cpp:357-385 | definition: the escape the string writer emits for one character |
| ConfigText.Escaped | engine/config/ConfigBase.cpp:357-385 | definition: the escaped text of a string value |
| ConfigText.EscapedRoundTrip | engine/config/ConfigBase.cpp:357-385 | unescaping the escaped text gives back the string |
| ConfigText.QuotedRoundTrip | engine/config/ConfigBase.cpp:357-385 | a written string literal reads back as the string |
| ConfigText.KeyLiteral | engine/config/ConfigBase.cpp:908-951 | a key is written bare or as a bracketed string literal |
| ConfigText.KeyRoundTrip | engine/config/ConfigBase.cpp:908-951 | every key, written by the corrected quoting, reads back as itself |
| ConfigText.EmptyOrReservedKeyUnreadable | engine/config/ConfigBase.cpp:908-920 | as written, an empty key or a Lua keyword goes out bare and cannot be read back |
| ConfigText.CarriageReturnKeyUnreadable | engine/config/ConfigBase.cpp:922-951 | as written, a key holding a carriage return cannot be read back |
| ConfigText.BareAsWritten | engine/config/ConfigBase.cpp:908-920 | definition: the test for writing a key bare, letters and underscores anywhere and digits after the first character |
| ConfigText.KeyEscapedAsWritten | engine/config/ConfigBase.cpp:922-951 | definition: the escaped text of a quoted key, as written |
| ConfigText.KeyLiteralAsWritten | engine/config/ConfigBase.cpp:908-951 | definition: a key as written, bare when it passes the test and otherwise a bracketed string |
| Atlas.PlacedContiguous | engine/video/AtlasPacker.cpp:69-106 | merging keeps the skyline gap-free and its width unchanged |
| Atlas.PlacedProfile | engine/video/AtlasPacker.cpp:69-106 | after merging, the skyline is raised to the rectangle's top over its columns and unchanged elsewhere |
| Atlas.RangeBelowTop | engine/video/AtlasPacker.cpp:16-59 | no column under the chosen range is above the range's top |
| Atlas.Placement | engine/video/AtlasPacker.cpp:14-112 | a placement lies inside the canvas, on top of the skyline, and raises exactly its own columns |
| Atlas.ProfileBelowMaxY | engine/video/AtlasPacker.cpp:114-120 | no column is above the content height |
| Atlas.AtlasPacker.constructor | engine/video/AtlasPacker.cpp:4-12 | an empty packer has no segments and zero height |
| Atlas.AtlasPacker.ExtendCanvas | engine/video/AtlasPacker.cpp:4-12 | a floor-level segment of width dx is added on the right and the canvas grows by dy |
| Atlas.AtlasPacker.FindRange | engine/video/AtlasPacker.cpp:16-59 | a returned range fits the rectangle, and its top is the highest segment in it |
| Atlas.AtlasPacker.Merge | engine/video/AtlasPacker.cpp:69-106 | the merge loop computes Placed |
| Atlas.AtlasPacker.PlaceRect | engine/video/AtlasPacker.cpp:14-112 | a placed rectangle lies inside the canvas and rests on the skyline, which is raised over its columns only; a failed placement changes nothing |
| Atlas.AtlasPacker.GetContentHeight | engine/video/AtlasPacker.cpp:114-120 | the result is the highest segment top (0 when there are none) |
| ConsoleHistory.Window | engine/ui/Console.cpp:21-28 | the kept history is the last maxSize entries |
| ConsoleHistory.Entered | engine/ui/Console.cpp:21-28 | definition: the history after one entry, appended and with the oldest dropped when it grows past its size |
| ConsoleHistory.EnteredWindow | engine/ui/Console.cpp:21-28 | entering into a full history keeps the last maxSize of all entries ever entered |
| ConsoleHistory.History.constructor | engine/ui/Console.cpp:16-19 | a new history is empty |
| ConsoleHistory.History.Enter | engine/ui/Console.cpp:21-28 | the line is appended, dropping the oldest when full |
| Console.HistoryUp | engine/ui/Console.cpp:97-105 | up moves one entry back and shows it, stopping at the oldest |
| Console.HistoryDown | engine/ui/Console.cpp:114-126 | down moves one entry forward and shows it; past the newest the input is empty |
| Console.Remembered | engine/ui/Console.cpp:137-143 | definition: a command is entered into the history unless it repeats the newest entry |
| Console.DownAfterUp | engine/ui/Console.cpp:97-126 | down after up returns to the same position |
| Console.UpAfterDown | engine/ui/Console.cpp:97-126 | up after down returns to the same position and entry |
| Console.RememberedNoRepeats | engine/ui/Console.cpp:137-155 | a command equal to the last one is not recorded twice |
| Console.Console.constructor | engine/ui/Console.cpp:42-62 | a new console has no history and empty input, with echo and auto-scroll on |
| Console.Console.SetHistory | engine/ui/Console.cpp:69-73 | the cursor moves past the newest entry |
| Console.Console.OnUp | engine/ui/Console.cpp:97-105 | the cursor and input follow HistoryUp |
| Console.Console.OnDown | engine/ui/Console.cpp:114-126 | the cursor and input follow HistoryDown |
| Console.Console.OnEnter | engine/ui/Console.cpp:137-155 | an empty line prints a prompt only; a non-empty one is echoed when echo is on, sent, and remembered unless it repeats the last entry, and the cursor moves past it |
| Console.Console.OnEscape | engine/ui/Console.cpp:170-174 | the input is cleared; the key is handled only if there was input |
| Console.Console.OnKeyPressed | engine/ui/Console.cpp:86-193 | each key does its own action: Up and Down move through the history, Enter does all of OnEnter, Escape clears the input; unhandled keys change nothing, and only Enter touches auto-scroll |
| Layout.Root | game/src/libui/LayoutContext.cpp:6-14 | the root context carries the given values |
| Layout.Child | game/src/libui/LayoutContext.cpp:16-23 | definition: the context a child window inherits from its parent and its own layout |
| Layout.DescendCombines | game/src/libui/LayoutContext.cpp:16-23 | a window is enabled exactly when every layout on the way is, and focused exactly when every parent focuses the next window |
| Layout.DescendAccumulates | game/src/libui/LayoutContext.cpp:16-23 | offsets add up, opacities multiply, scale is inherited and the size is the window's own |
| Input.ComposeFlags | game/src/libui/InputContext.cpp:21-29 | the stacked focused and hovered flags are the conjunction of all pushed flags |
| Input.ComposeSnoc | game/src/libui/InputContext.cpp:21-29 | pushing composes the new transform onto the top |
| Input.InputContext.constructor | game/src/libui/InputContext.cpp:10-19 | the stack holds the base transform and no pointer is captured |
| Input.Pushed | game/src/libui/InputContext.cpp:21-29 | definition: the frame a push puts on top, with offsets added and focus and hover combined |
| Input.Compose | game/src/libui/InputContext.cpp:21-35 | definition: the top frame after a sequence of pushes onto a fresh stack |
| Input.InputContext.TopComposed | game/src/libui/InputContext.cpp:21-35 | the top of the stack is the composition of all pushed transforms |
| Input.InputContext.PushInputTransform | game/src/libui/InputContext.cpp:21-29 | the composed transform is pushed |
| Input.InputContext.PopInputTransform | game/src/libui/InputContext.cpp:31-35 | the top transform is popped |
| Input.InputContext.GetMousePos | game/src/libui/InputContext.cpp:37-40 | the position, moved by the current offset, is the raw mouse position |
| Input.InputContext.FocusedIffAllFocused | game/src/libui/InputContext.cpp:42-50 | the context is focused or hovered exactly when every pushed transform is |
| Input.InputContext.HasCapturedPointers | game/src/libui/InputContext.cpp:58-68 | true exactly when some capture path holds the window |
| Input.InputContext.ProcessPointer | game/src/libui/InputContext.cpp:156-244 | captured pointers go to their capture path; an accepted press captures; release or cancel frees; focus is propagated along the path |
| Input.PropagateFocus | game/src/libui/InputContext.cpp:135-139 | every window on the path focuses the next one |
| Input.PropagatedTargetFocused | game/src/libui/InputContext.cpp:135-139 | after propagation, the target's layout context is focused whenever the root is |
| ButtonStates.CheckFrame | game/src/libui/Button.cpp:322-325 | the check-box frame is one of 8 |
| ButtonStates.CheckFrameDecodes | engine/ui/Button.cpp:241-250 | the frame determines both the state and the check mark |
| LibUiButton.ButtonBase.constructor | game/src/libui/Button.cpp:9-13 | a new button is normal, enabled and holds no pointer |
| LibUiButton.ButtonBase.SetState | game/src/libui/Button.cpp:15-22 | a state change is reported once and redraws the frame; setting the same state does nothing |
| LibUiButton.ButtonBase.OnPointerMove | game/src/libui/Button.cpp:24-41 | the held pointer shows pushed exactly inside the button; with no capture the button is hot-tracked; a state change is reported once, and a plain button's frame stays |
| LibUiButton.ButtonBase.OnPointerDown | game/src/libui/Button.cpp:43-53 | the primary button captures the pointer and pushes, unless a pointer is already held; a state change is reported once, and a plain button's frame stays |
| LibUiButton.ButtonBase.Click | game/src/libui/Button.cpp:92-94 | a click is counted, and a check box toggles |
| LibUiButton.ButtonBase.OnPointerUp | game/src/libui/Button.cpp:55-73 | releasing the held pointer frees it, and clicks exactly when the button showed pushed; otherwise the state stays; only a check box changes its mark; a state change is reported once, and a plain button's frame stays |
| LibUiButton.ButtonBase.OnMouseLeave | game/src/libui/Button.cpp:75-79 | the button returns to normal; a state change is reported once, and a plain button's frame stays |
| LibUiButton.ButtonBase.OnTap | game/src/libui/Button.cpp:81-90 | a tap clicks exactly when no pointer is held; the click toggles a check box and leaves any other button's frame as it was |
| LibUiButton.ButtonBase.OnEnabledChange | game/src/libui/Button.cpp:100-110 | enabling shows normal, and disabling shows disabled; a state change is reported once, and a plain button's frame stays |
| LibUiButton.ButtonBase.SetCheck | game/src/libui/Button.cpp:306-310 | the mark is set and the frame follows it |
| UiButton.GetState | engine/ui/Button.cpp:15-31 | disabled exactly without an enabled click handler; otherwise pushed exactly while pressed inside with capture, or on Enter; otherwise hot exactly while focused or pointed at |
| UiButton.FocusOrPointer | engine/ui/Button.cpp:15-31 | keyboard focus and pointer hover never both count: the later input wins |
| UiButton.KeyboardIgnoresHover | engine/ui/Button.cpp:15-31 | after a key press, hovering does not change the state |
| UiButton.PointerIgnoresFocus | engine/ui/Button.cpp:15-31 | after pointer use, focus does not change the state |
| UiButton.EnabledNavigable | engine/ui/Button.cpp:83-86 | a button shown enabled accepts Enter navigation |
| UiButton.OnPointerDown | engine/ui/Button.cpp:33-37 | a press is taken by touch or the primary button, and only while no pointer is held |
| UiButton.ButtonBase.DoClick | engine/ui/Button.cpp:76-81 | a check box toggles, and the handler runs once if installed |
| UiButton.ButtonBase.OnPointerUp | engine/ui/Button.cpp:39-45 | a release inside the button clicks |
| UiButton.ButtonBase.OnTap | engine/ui/Button.cpp:47-53 | a tap clicks unless a pointer is held |
| UiButton.ButtonBase.OnNavigate | engine/ui/Button.cpp:88-94 | a completed Enter clicks, running the handler exactly when navigation was allowed |
| UiButton.ButtonBase.SetCheck | engine/ui/Button.cpp:210-213 | the mark is set |
| UiButton.ButtonBase.DrawFrame | engine/ui/Button.cpp:241-250 | the drawn frame encodes the mark and the state GetState derives |

## Left out

- Lua-backed configuration is not modelled, because it calls into the Lua interpreter: `RunCmdQueue`, `Assign`, `Push`, `Load`, `GetKeys` and the Lua bindings.
- Configuration references (`ConfVarReference`), per-element change events and per-element frozen flags are not modelled. Double-to-float conversions are exact here, because numbers are reals.
- Operating-system file I/O and `Serialize` are not modelled; streams are byte sequences.
- Floats are reals in the game and UI modules. In the map file, float attributes are carried as 32-bit patterns, so they round-trip bit-exactly but carry no arithmetic.
- Rendering (`Draw` methods and sprites) is left out, except the check box's frame choice.
- The network client path of `Level` is left out; only the local client's control queue is modelled.
- CELL_SIZE (32), LOCATION_SIZE (128) and RAND_MAX (0x7FFF) are not defined in the source files of this model. Their usual values are used. PLAYER_RESPAWN_DELAY and the random `frand` value are parameters.
- Camera.UpdateLayout: more than four cameras on a screen smaller than the level is a failed assertion in the source. Here it is an error result that leaves the cameras unchanged.
- The camera's `TimeStepFloat`, `GetWorld`, `GetWorldMousePos` and free movement are not modelled; they are floating-point view arithmetic.
- The input context's `FindAreaSink`, `TraverseFocusPath`, `RestoreOffsetAndLayoutContext`, `ProcessScroll`, `ProcessKeys` and the sink handler calls are not modelled. They walk window trees through virtual calls.
- Input.InputContext.ProcessPointer: the hit-test path, the handler's acceptance and NeedsFocus are parameters, and `_lastPointerLocation` is not tracked.
- Input.InputContext.GetFocused and Input.InputContext.GetHovered have no contract of their own; FocusedIffAllFocused states their meaning.
- UiButton.CanNavigate has no contract of its own; EnabledNavigable and OnNavigate state its use.
- The console's scrolling, Tab completion and the case of a null output buffer are not modelled.
- Console.Console.OnKeyPressed: leaves `autoScroll` as it was for PageUp, PageDown and Tab. The source recomputes it from the scroll position for PageUp and PageDown, and sets it after a Tab completion.
- Button event callbacks are not modelled. The one effect of the click callback that the button reacts to, disabling it, is a parameter of LibUiButton.ButtonBase.OnPointerUp. Pointer-in-rectangle tests are given as booleans, and navigation directions and phases are reduced to Enter and completed.
- LibUiButton.ButtonBase.constructor: the `changes` log does not include the direct `OnChangeState` call that subclass constructors make.
- MapFile's `CalcSize`, `Seek` and `GetCurrentClassName` are not modelled. The debug assertions are preconditions here.
- PassabilityField.UpdateCell: computes the corrected cell update (Processed), which pins a border cell to 0xFF after an add as well as after a remove. The source re-pins it only after a remove; ProcessedAsWritten and AddOnBorderUnpinsIt model that (see Findings).
- PassabilityField.Field.ProcessCell: updates the cell with the corrected UpdateCell, not the as-written update that leaves an added-to border cell unpinned.
- PassabilityField.Field.ProcessObject: processes the covered cells with the corrected UpdateCell, so the field keeps every border cell at 0xFF. The source does not after an add.
- MapFiles.MapFile.SetObjectAttribute: appends the corrected encoding (EncodeValue), where a string's bytes are cut to its 16-bit length. The source writes the cut length and then all the bytes; EncodeValueAsWritten and LongStringMisaligns model that (see Findings). The two agree for every string shorter than 65536 bytes.
- MapFiles.ReadHeader: returns an end-of-file error whenever the data ends before "}hdr". The source only does so when the last chunk read was an attribute chunk, whose stale header sends the loop into a read that fails with the same error. When the last chunk read was any other chunk (a lone "hdr{", for example), the source loop never ends. HeaderPassAsWritten and TruncatedHeaderLoopsForever model that (see Findings). A stream that also throws on a partial chunk header, as the Win32 file stream does, is not modelled.
- MapFiles.MapFile.Open: fails with the end-of-file error of ReadHeader also where the source's constructor never returns, that is, when the data ends after a chunk other than an attribute chunk.
- MapFormat.AttribBody: follows a 32-bit build when it skips an attribute chunk of an unsupported type. It moves forward by chunkSize - 4 taken modulo 2^64, so a chunkSize below 4 jumps past the data and the next pass reports end of file. On a 64-bit build the wrapped size becomes a negative `long long` seek. The stream then moves back 4 - chunkSize bytes and the loop reads on from there; that backward seek is not modelled.
- MapFiles.MapFile.NextObject: an error leaves the cursor and the classes unchanged. In the source, the exception comes after the stream has advanced. A bad property type is found after the class definition has been appended, and a bad class index after `_obj_type` has been set.
- Level.Level.Resize: the per-level object grids (`z_grids` and the `grid_*` grids) are not fields of the model; Actor.Grid.constructor models one grid at its new size. The default camera that `Resize` creates is not modelled.
- Level.Level.TimeStep: the cameras' free movement and the release of finished sounds, done before the pause check, are not modelled.
- Actor.Actor.MoveTo: the `NOTIFY_ACTOR_MOVE` notification sent after every move is not modelled; subscribers are not part of this model.
- Actor.Actor.AddContext: requires that the grid is not yet one of the actor's grids and does not list the actor. The source does not check either; adding a grid twice would list the actor twice.
- Atlas.AtlasPacker.FindRange: only soundness is stated. The choice of the lowest top among candidate ranges, and the early exit below a top of 8, are not part of the contract.
- Atlas.AtlasPacker.PlaceRect: a placement is proved valid and exact in its effect on the skyline, but not proved to be the lowest available one.
- Atlas.AtlasPacker.PlaceRect: 32-bit overflow of canvas coordinates is not modelled.

## Findings

| source | as written | input that shows it | evidently intended | confidence | as-written member | corrected member |
|---|---|---|---|---|---|---|
| game/src/tank/Level.cpp:187-195 | when a body is added, the cell's property is recomputed even on the border, losing the 0xFF pin (the remove branch restores it) | a 4x4 field and a body of passability 1 added to the corner cell (0,0): its property becomes 1 | border cells stay impassable (0xFF) after an add too | not executed | PassabilityField.AddOnBorderUnpinsIt | PassabilityField.ProcessedKeepsCell |
| engine/config/ConfigBase.cpp:908-951 | a table key is written bare when it is empty or a Lua keyword, and the quoted form has no escape for a carriage return | the key "" or "end"; a key holding '\r' | every key is written so that Lua reads it back as itself | not executed | ConfigText.EmptyOrReservedKeyUnreadable | ConfigText.KeyRoundTrip |
| game/src/mf/MapFile.cpp:33-99 | the header loop ignores the result of `_read_chunk_header`, so at the end of the data it keeps the old chunk header and skips 0 bytes | a file made only of an 8-byte "hdr{" chunk header: the loop never ends | a missing "}hdr" is an end-of-file error | not executed | MapFormat.TruncatedHeaderLoopsForever | MapFormat.HeaderRoundTrip |
| game/src/mf/MapFile.cpp:348-366 | a string attribute's length is cut to 16 bits but all its bytes are written | a string of 65536 zero bytes followed by the int 7: the string reads back empty and the int as 0 | the stored length matches the bytes written | not executed | MapFormat.LongStringMisaligns | MapFormat.ReadValueAt |
