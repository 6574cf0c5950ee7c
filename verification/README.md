# Verified models of the codecs, containers and run invariants

The repository brings an arcade character into a console game and packages replacements for its disc. Its hardest parts
work on bytes: sector codes, move and animation data, textures, archives and streams. Beside them stand a few state
machines whose promises span whole runs. This project models those parts in Dafny and proves what they promise.
`dafny verify dfyconfig.toml` checks everything.

## What is modelled

| files | component |
|---|---|
| `Gf256`, `RsCode`, `SectorEcc`, `EccDetection`, `Edc`, `SectorEnvelope` | the error detection and correction codes of a raw CD sector (section 14.3 and Annex A of ECMA-130) and the check of a whole sector |
| `Motion`, `MotionCode`, `MotionEncode` | the bit-packed animation decoder, its delta codes, and an encoder it is the inverse of |
| `JunSource`, `MoveGraph`, `MoveLinks`, `JunConvert`, `JunRows`, `JunLists`, `JunLayout`, `JunSize`, `JunBuild` | from the arcade move data through the closed move graph to a combat pack, field by field and byte by byte |
| `JunPack`, `JunAgree` | the independent validator of packs, and when exactly it accepts what the writer made |
| `JunArena`, `JunCombat`, `JunPlayback`, `JunGuest` | loading a pack into guest memory, serving poses from it, and what survives from source to guest |
| `SourceRotation` | the blended half-turn and the rewritten address pairs |
| `Basis` | the change of bone axes between the two skeletons |
| `UiPalette` | a menu borrowing a palette row the game keeps writing to |
| `Fight`, `FightRuns` | the native fight simulation, step by step and over whole runs |
| `Tim`, `TimPixels`, `TimImport` | textures: parsing, scanning, decoding and exact-size re-encoding |
| `Png`, `PngStream` | RGBA images in PNG files (the PNG specification, section 9 for the filters) |
| `Lz` | the LZ decoder of interface images and its literal encoder |
| `Movies` | the recogniser of movies in a sequence of video sectors |
| `Arc`, `Overlays`, `OverlayDisc` | archive records, packages of disc overlays, and the disc they leave |
| `Bytes`, `Options` | little-endian fields, the missing value and sequences collected piece by piece, shared by all |

Code that changes things step by step is modelled by methods with loops, arrays and classes, each proved equal to a
specification function or to an acceptance predicate; the properties are lemmas about those. A specification function that
fixes a format or a table is in turn proved equal to a second description of it that does not use it: the bytes of the
input it stands for, the equations of a standard, or an encoder. Exceptions and rejections
are results without a value. CRC-32 and zlib are parameters of which only `inflate(deflate(x)) == x` is used.

## Findings

- A sector parity check sees every change of up to eight of the bytes 16 to 2351, not only of one or two, and nine is
  the exact limit (`EccDetection.NineIsExact`). The check of a whole sector has one gap: the submode byte itself says
  whether the parity is checked. One to eight changes behind the header of a Form 1 sector pass exactly if the changed
  sector is one in Form 2: equal subheader copies with the form bit, and the Form 2 code in its last four bytes
  (`SectorEnvelope.ScatteredChanges`). Every accepted Form 1 sector has such a neighbour at most six bytes away
  (`SectorEnvelope.Form2TwinPasses`).
- The pack writer checks none of the limits its validator imposes. A source makes a pack exactly if it converts cleanly
  and the pack stays below four gigabytes, and the pack is accepted exactly if the source keeps six limits, none of which
  mentions the pack: `JunAgree.WithinLimits` with `RecordsWithinLimits` and `RecordWithinLimits`, over the exact size
  `JunSize.PackSize`. A source with one clip of no frames is written and refused (`JunBuild.RefusedSource`).
- The source rotation turns away from its goal for every negative frame number; for no other
  (`SourceRotation.NeverFurtherIff`). It reduces the axis by 65535 although the comment beside it gives 65536 units to
  a turn; the result is one unit ahead exactly for far negative yaws (`SourceRotation.AxisExactIff`).
- A game write that equals the colour the menu is showing cannot be told from the menu's own; it is lost exactly if the
  menu remembers another colour for the entry (`UiPalette.ReleasedRow`, `UiPalette.WriteLost`).
- A 16-bit texture can be re-encoded with rounding unless a pixel is opaque and all its channels are at most 4: those
  round to the word that means transparent (`TimImport.QuantizedIff`).
- `encode_png_rgba` writes files that `decode_png_rgba` refuses exactly when the picture is above the decoder's size
  limit (`PngStream.RoundTrip`); `literal_stream` and `decompress` behave alike (`Lz.LiteralRoundTrip`).

## Model

| member | source | states |
|---|---|---|
| `RsCode.ParityIsUnique` | tools/xas_mod.py:198-203 | two parity symbols complete given data to a codeword of both parity equations in exactly one way |
| `RsCode.MinimumDistance` | tools/xas_mod.py:180-204 | two different codewords of one length differ in at least three places |
| `RsCode.WeightedIsPowerSum` | tools/xas_mod.py:180-204 | the second sum, formed from the left by doubling, is the sum of Annex A: each symbol weighted by the power of the field element 2 that counts the symbols behind it |
| `SectorEcc.EccTables` | tools/xas_mod.py:158-170 | the two tables built by the loop are multiplication by two and division by three in GF(2^8) mod 0x11D, at every index |
| `Gf256.FieldPolynomial` | tools/xas_mod.py:158-167 | in the field the forward table multiplies in, alpha^8 is alpha^4 + alpha^3 + alpha^2 + 1, the polynomial of Annex A of ECMA-130 |
| `SectorEcc.EccColumn` | tools/xas_mod.py:190-203 | the strided, wrapping loop over one column emits the two bytes that complete its bytes to a codeword |
| `SectorEcc.EccBlock` | tools/xas_mod.py:180-204 | the same for all columns of a block |
| `EccDetection.DiagonalsOfAnnexA` | tools/xas_mod.py:220-226 | the diagonals visited are those of Annex A: the M-th word of the N-th one is word 44 M + 43 N modulo 1118 |
| `EccDetection.ValidateMode2Form1Ecc` | tools/xas_mod.py:207-228 | accepts exactly the sectors all of whose P columns and Q diagonals satisfy both parity equations |
| `EccDetection.ProductDistance` | tools/xas_mod.py:207-228 | two accepted sectors agree in bytes 16 to 2351 or differ in at least nine of them |
| `EccDetection.DetectsUpToEight` | tools/xas_mod.py:207-228 | changing one to eight of these bytes of an accepted sector makes the validator reject |
| `EccDetection.NineIsExact` | tools/xas_mod.py:207-228 | every sector with sound parity and every change of one of its bytes 16 to 2075 has an accepted neighbour with that change that differs in exactly nine bytes |
| `Edc.BuildEdcTable` | tools/xas_mod.py:145-155 | the table holds the eight-fold bit-serial shift of every byte |
| `Edc.CalculateEdc` | tools/xas_mod.py:173-177 | the table-driven fold is the bit-serial remainder, lowest bit first, for 0xD8018001 of every byte string |
| `Edc.ShiftMultiplies` | tools/xas_mod.py:145-152 | one shift of the register multiplies its polynomial by x modulo (x^16 + x^15 + x^2 + 1)(x^16 + x^2 + x + 1), the generator of section 14.3 of ECMA-130 |
| `Edc.Linear` | tools/xas_mod.py:173-177 | the code of the bytewise exclusive or of two equally long strings is the exclusive or of their codes |
| `Edc.ResidueZero` | tools/xas_mod.py:173-177 | four bytes appended to a string make the residue zero exactly if they are its code, little-endian |
| `Edc.BurstDetected` | tools/xas_mod.py:173-177 | strings that differ only inside four consecutive bytes have different codes |
| `SectorEnvelope.ValidateSectorEnvelope` | tools/xas_mod.py:231-264 | accepts exactly the well-formed sectors, with the four subheader bytes, and otherwise names the first check that fails |
| `SectorEnvelope.BcdMeans` | tools/xas_mod.py:237-245 | an address byte passes exactly if its two digits are those of a decimal number up to the limit |
| `SectorEnvelope.FormBit` | tools/xas_mod.py:250-263 | the form, which decides where the code lies and whether parity is checked, is bit 5 of the submode byte |
| `SectorEnvelope.BurstRejected` | tools/xas_mod.py:231-264 | in either form any change inside four consecutive bytes behind the header makes an accepted sector rejected |
| `SectorEnvelope.ScatteredChanges` | tools/xas_mod.py:231-264 | one to eight changes behind the header of an accepted Form 1 sector pass if and only if the changed sector is sound as Form 2; both submode bytes are then among the changes |
| `SectorEnvelope.Form2TwinPasses` | tools/xas_mod.py:231-264 | every accepted Form 1 sector has an accepted Form 2 neighbour that differs in the two submode bytes and at most the last four |
| `Motion.BitReader.Take` | tools/ttt1_motion.py:50-64 | the lazily refilled reader returns exactly the next n bits of the little-endian word stream, and fails exactly at its end |
| `Motion.DecodeChannel` | tools/ttt1_motion.py:48-90 | one channel of a block, read up to the wanted frame, is that many steps of the pure channel machine |
| `Motion.Interchange` | tools/ttt1_motion.py:48-91 | stepping all channels frame by frame and each channel by itself come to the same |
| `Motion.Decode` | tools/ttt1_motion.py:27-91 | random access to a frame equals streaming the block's channels to it, wrap-around and all failures included; what the codes of the stream mean is fixed by the rows of `MotionCode` and `MotionEncode` |
| `Motion.EarlierInBlock` | tools/ttt1_motion.py:46-91 | if a later frame of a block decodes then so does every earlier one, and the later one continues it |
| `Motion.EarlierFramesDecode` | tools/ttt1_motion.py:27-91 | the same by frame numbers of a clip |
| `MotionCode.TokensTile` | tools/ttt1_motion.py:80-87 | the delta codes tile the deltas: every field of every code from 1 to 6 stands for exactly one delta from -84 to 84 other than zero, and codes 1 to 3 are the lowering ones |
| `MotionCode.AppliesDelta` | tools/ttt1_motion.py:74-90 | whatever a delta code adds to the value is one of those deltas, shifted, under its own code and field; no other delta can be coded |
| `MotionEncode.PlanFound` | tools/ttt1_motion.py:74-90 | the encoder finds deltas and absolute values for every list of channel values that some sequence of codes produces |
| `MotionEncode.ChannelDecodes` | tools/ttt1_motion.py:48-90 | a channel encoded from any such list, with repeats, decodes to the list, and the next channel begins behind it |
| `MotionEncode.FramesDecode` | tools/ttt1_motion.py:27-91 | for a clip whose blocks hold encoded frames the decoder returns the stored first and last poses and in between exactly the encoded values |
| `JunSource.BuildConditions` | tools/convert_jun_moves.py:26-33 | the table the successive updates build is the closed form of the condition numbers, each below 83 |
| `JunSource.TransitionsDiffer` | tools/jun_solo_semantics.py:84-97 | a transition has a translation exactly up to 46, and no two are confused but 31 and 32, which mean the same |
| `JunSource.Flatten` | tools/convert_jun_moves.py:46-56 | the expansion of nested cancel lists, with its depth and length limits |
| `JunSource.SoundEvents` | tools/jun_solo_semantics.py:46-63 | the translated events before the first 0xffff, at most three, and the numbers of the animation events among them |
| `JunSource.SoundsShape` | tools/jun_solo_semantics.py:46-63 | no translated event can be mistaken for the terminator |
| `JunSource.AnimationsReferred` | tools/jun_solo_semantics.py:46-63 | every translated animation event refers to a listed number, moved behind the 1024 native ones |
| `JunLists.SoundsCarried` | tools/jun_solo_semantics.py:46-63 | the written events are the halfwords before the first 0xffff, at most three; those between 0x8001 and 0x8fff are 1024 higher, all others the same |
| `JunSource.TimedProperties` | tools/jun_solo_semantics.py:16-43 | the rows before the zero frame, the translated ones and those without a translation apart; fails on a missing end |
| `JunSource.PropertiesShape` | tools/jun_solo_semantics.py:16-43 | at most 255 rows, none with frame zero |
| `JunLists.PropertiesCarried` | tools/jun_solo_semantics.py:16-43 | the written rows are, in order, all rows before the zero frame but those of operation five, with frame and argument kept and the operation renamed |
| `JunLists.RenamedApart` | tools/jun_solo_semantics.py:31-39 | no two operations get the same number |
| `JunSource.ReadSequence` | tools/convert_jun_moves.py:135-146 | the one well-formed input sequence at a command, if there is one |
| `MoveGraph.CloseGraph` | tools/convert_jun_moves.py:98-113 | the least set of moves with the seeds that is closed under every link; none exactly if no closed set contains the seeds |
| `MoveGraph.Gather` | tools/convert_jun_moves.py:86-115 | the least closed graph over the recorded moves, the common locomotion and the engine's entry points, in ascending order, with the thirteen words of every record |
| `MoveGraph.NeutralGathered` | tools/convert_jun_moves.py:89-91 | the neutral move is always among the records unless its alias names the absent move |
| `MoveGraph.DestinationsConverted` | tools/convert_jun_moves.py:101-113 | every cancel row that could be emitted has a converted destination unless its alias lies outside the table |
| `MoveGraph.ConvertedIsEligible` | tools/convert_jun_moves.py:103-105 | every row the conversion emits is one whose link the search followed |
| `MoveGraph.DroppedRows` | tools/convert_jun_moves.py:160-208 | no row is left unresolved for want of a destination inside the alias table |
| `MoveGraph.RecoveriesConverted` | tools/convert_jun_moves.py:102-102 | the recovery alias of every record, if inside the table, has a target |
| `MoveLinks.TargetsAre` | tools/convert_jun_moves.py:98-113 | the aliases a move leads to are, by the bytes of the memory, its recovery halfword, the destinations of its usable or ending cancel rows, and the fourteen aliases of both reactions of every hit row up to the 0xffff one; there are none exactly if one of these tables cannot be read |
| `MoveLinks.ReactionsGathered` | tools/convert_jun_moves.py:106-108 | for every gathered record, every row of its hit table and either reaction that is not zero, each of the fourteen halfwords behind the reaction that is below the alias count has a target |
| `MoveLinks.OnlyReached` | tools/convert_jun_moves.py:98-113 | every gathered address is a seed or lies behind such a link of another gathered address |
| `JunConvert.Cancels` | tools/convert_jun_moves.py:160-208 | converts the rows of one list in order, filing input sequences as they come; what a row becomes is fixed by `JunRows.RecordCarried` |
| `JunRows.RecordCarried` | tools/convert_jun_moves.py:160-208 | byte for byte, each converted row is a source row: the time window is source bytes 11 to 13, the parameter source bytes 4 and 5 with bit 15 set for condition 74 and bit 14 for 75, zero in an ending row; the command, condition, transition and destination are the translated ones. The rows picked are in order, every row passed over before the end is one no solo fight can use, and a list without an end of its own is closed by the recovery link |
| `JunConvert.InputPattern` | tools/convert_jun_moves.py:135-146 | answers with the number a sequence is filed under, or files it under the next one if it is well formed |
| `JunLists.TableCarried` | tools/convert_jun_moves.py:268-271 | the table of a written pack holds every filed sequence under its number, halfword for halfword from 0x772 + 2 cmd up to the first zero |
| `JunBuild.Append` | tools/convert_jun_moves.py:214-215 | pads to a word boundary, keeps all that was written, and returns where the data lies |
| `JunBuild.PlaceClip` | tools/convert_jun_moves.py:217-222 | a clip is written once per source and found again under every later use |
| `JunBuild.PlacedKept` | tools/convert_jun_moves.py:216-264 | a record once written survives every later append and every patch of another record |
| `JunBuild.Build` | tools/convert_jun_moves.py:212-273 | makes a pack if and only if everything converts cleanly and the exact size is below four gigabytes; the pack has that size, holds every record, clip, list, relocation and sequence where its fields say, and is accepted if and only if the source keeps the limits |
| `JunBuild.RefusedSource` | tools/convert_jun_moves.py:216-222 | a concrete source with a clip of no frames that is written to 152 bytes and breaks a limit |
| `JunSize.LayoutsOfSource` | tools/convert_jun_moves.py:223-226 | whatever places the records got, their rows and sequences are those the source alone determines |
| `JunPack.Validate` | src/tekken3_jun_pack.h:13-60 | accepts exactly the packs, without reading outside the buffer |
| `JunPack.ValidatePattern` | src/tekken3_jun_pack.h:22-29 | one input sequence: number, length, timing and terminator |
| `JunAgree.ConvertedOk` | tools/convert_jun_moves.py:160-208 | every converted row satisfies what the validator asks of a row, and only the last ends the list |
| `JunAgree.FiledGrow` | tools/convert_jun_moves.py:135-146 | sequences once filed stay filed under their number |
| `JunAgree.ClipAgrees` | tools/convert_jun_moves.py:217-222 | a written clip is accepted exactly if it has a frame |
| `JunAgree.CancelsAgree` | tools/convert_jun_moves.py:223-228 | a written cancel list is accepted exactly if it has at most 4096 rows |
| `JunAgree.SoundsAgree` | tools/convert_jun_moves.py:246-249 | a written sound list is always accepted |
| `JunAgree.PropertiesAgree` | tools/convert_jun_moves.py:250-251 | a written property list is always accepted |
| `JunAgree.AcceptedExactlyWithinLimits` | tools/convert_jun_moves.py:212-273 | for every source and every pack written from it, however laid out, the validator accepts if and only if the pack is at most 16 MiB and the source keeps the other limits |
| `JunArena.PiecesApart` | src/tekken3_jun_combat.c:247-266 | no two copied pieces of any two records overlap, and all lie between the tables and the computed size |
| `JunArena.AcceptedReadable` | src/tekken3_jun_combat.c:247-266 | the fill pass reads nothing outside a pack the validator accepts |
| `JunArena.SizePass` | src/tekken3_jun_combat.c:233-242 | the first pass computes the sum of all piece sizes |
| `JunArena.FillRecord` | src/tekken3_jun_combat.c:248-265 | one record's four pieces are copied faithfully, its pointers name the copies, and everything filled before stays |
| `JunArena.FillPass` | src/tekken3_jun_combat.c:245-266 | the cursor ends exactly at the computed size, with all records filled and the rest of the tables as in the pack |
| `JunCombat.RelocationsSound` | src/tekken3_jun_combat.c:224-227 | the loader's own check of the relocations never rejects what the validator accepts |
| `JunCombat.PlaceSequences` | src/tekken3_jun_combat.c:268-277 | the second check of the input sequences fails for want of memory only |
| `JunCombat.Combat.Load` | src/tekken3_jun_combat.c:212-281 | the first call loads exactly the valid packs for which the arena, all input sequences and the tables file find their place; later calls change nothing |
| `JunCombat.Combat.Pose` | src/tekken3_jun_combat.c:464-473 | a guest address serves a pose exactly if it is a clip address, and then the nearest existing frame of that record's clip |
| `JunCombat.ClipsDistinct` | src/tekken3_jun_combat.c:464-467 | a clip address names one record only |
| `JunPlayback.PosesSurvive` | src/tekken3_jun_combat.c:464-473 | every frame served for a written and accepted pack is the frame of the arcade decoder |
| `JunPlayback.SourceSurvives` | src/tekken3_jun_combat.c:247-266 | behind the guest pointers lie the converted cancel rows, exactly the translated sound events and the translated properties; the following rows tie them to the arcade's memory |
| `JunPlayback.RowsSurvive` | src/tekken3_jun_combat.c:247-266 | the cancel rows in guest memory are, byte for byte, the record's rows in the arcade's memory, as `JunRows.RecordCarried` relates them |
| `JunGuest.ListsSurvive` | src/tekken3_jun_combat.c:247-266 | the sounds and timed properties in guest memory are, halfword for halfword, those in the arcade's memory, as `JunLists.SoundsCarried` and `JunLists.PropertiesCarried` relate them |
| `JunGuest.RecordSurvives` | tools/convert_jun_moves.py:239-264 | a loaded record is, byte for byte, the arcade's record: the kept words, the recovery link translated under the kept high half, the number of frames under the rest of its word, the active frames one byte further up, and the translated words |
| `JunGuest.MetadataSurvives` | tools/convert_jun_moves.py:266-266 | the metadata of a loaded record name its clip, its address in the arcade, its place and its number of cancel rows |
| `SourceRotation.Actor.Rotate` | src/tekken3_jun_combat.c:72-91 | one call turns the actor by the specified step, or leaves it alone outside the two modes |
| `SourceRotation.NearerEnd` | src/tekken3_jun_combat.c:77-84 | under 16-bit wrap-around the chosen end of the axis is at most a quarter turn away and no end is nearer |
| `SourceRotation.NoOvershoot` | src/tekken3_jun_combat.c:85-87 | with no negative frame a step goes towards the goal, not past it, and by at most 0x71c |
| `SourceRotation.NeverFurtherIff` | src/tekken3_jun_combat.c:85-87 | no facing is ever turned away from the goal if and only if the frame is not negative |
| `SourceRotation.RemainingAfter` | src/tekken3_jun_combat.c:72-91 | the next call finds exactly the remaining angle less the step: the goal does not change sides |
| `SourceRotation.ReachedInTen` | src/tekken3_jun_combat.c:72-91 | with a fixed camera ten calls from the eighth frame on reach the axis |
| `SourceRotation.NineFallShort` | src/tekken3_jun_combat.c:72-91 | nine calls from a quarter turn away do not |
| `SourceRotation.StaysOnAxis` | src/tekken3_jun_combat.c:72-91 | on the axis no run of calls with any frames moves the facing |
| `SourceRotation.RunNeverFurther` | src/tekken3_jun_combat.c:72-91 | over any run without negative frames the remaining angle never grows |
| `SourceRotation.AxisExactIff` | src/tekken3_jun_combat.c:77-79 | in either mode, mirrored or not, the axis is exact modulo a full turn if the reduced yaw is above -49151, and otherwise one unit ahead |
| `SourceRotation.PairLoadsTarget` | src/tekken3_jun_combat.c:111-114 | the two rewritten instructions together load exactly the target, carry and wrap-around included |
| `Basis.ChangeBasis` | src/tekken3_jun_basis.h:13-31 | the nested loops leave in place the matrix with its rows and columns turned by the parent's basis and the bone's own |
| `Basis.ChangedIsProduct` | src/tekken3_jun_basis.h:6-12 | the change turns and negates rows and columns exactly as the product of the two bases with the matrix does |
| `Basis.RoundTrip` | src/tekken3_jun_basis.h:6-12 | changing the basis and changing it back, in either order, is the identity for every bone and every integer matrix |
| `Basis.RoundTripCut` | src/tekken3_jun_motion.c:34-41 | the same modulo 2^16 when each result is cut to halfwords |
| `Basis.Telescopes` | src/tekken3_jun_basis.h:6-12 | along any parent chain the inner bases cancel: the converted chain followed by its last basis is the basis above the chain followed by the original chain |
| `Basis.WorldChangesByEndBone` | src/tekken3_jun_basis.h:6-12 | from the root down the accumulated rotation changes only by the basis of the end bone |
| `Basis.AxesAre` | src/tekken3_jun_basis.h:5-17 | root and shoulders, wrists, and ankles have one of three bases each; all other joints share their axes |
| `Basis.SkeletonMirrors` | src/tekken3_jun_basis.h:16-17 | both sides of the body have the same parents and axes under the exchange of left and right, and every bone hangs on an earlier one |
| `UiPalette.JunUiPalette.Upload` | src/tekken3_jun_ui_palette.h:13-21 | row, remembered and uploaded colours after an upload |
| `UiPalette.JunUiPalette.Release` | src/tekken3_jun_ui_palette.h:23-34 | row after a release; a release without ownership changes nothing |
| `UiPalette.BeliefAfter` | src/tekken3_jun_ui_palette.h:13-34 | uploads and releases change no belief about the game's colours; only a write of the shown colour is mistaken |
| `UiPalette.ReleasedRow` | src/tekken3_jun_ui_palette.h:13-34 | over every interleaving that ends with a release each entry equals what the game's writes alone make of it, if and only if its latest write was not mistaken |
| `UiPalette.RowReturned` | src/tekken3_jun_ui_palette.h:13-34 | a game that never writes a colour the menu shows gets its whole row back |
| `UiPalette.WriteLost` | src/tekken3_jun_ui_palette.h:13-34 | a concrete run that loses a write |
| `Fight.NativeGame.Step` | native/src/game.cpp:91-144 | the engine's step is the specified transition of the match, field by field |
| `Fight.FighterState.Update` | native/src/game.cpp:43-69 | movement, fall and ageing of one fighter |
| `Fight.NativeGame.ResolveAttack` | native/src/game.cpp:71-89 | hit test, damage, push and connection of one attack |
| `Fight.HitMeans` | native/src/game.cpp:71-89 | an attack hits exactly inside its window, towards the other side, within its reach and below height 1.3, once |
| `Fight.AttacksStarted` | native/src/game.cpp:119-126 | in every step an attack that goes on is kept; else a heavy press starts a heavy one, else a light press a light one, and the computer starts a light one exactly if the fighters stood less than 1.55 apart |
| `Fight.ComputerCloses` | native/src/game.cpp:110-117 | more than 2.2 away the computer moves towards the player by 0.58 of full speed, less in an attack; nearer it stands |
| `Fight.NextSound` | native/src/game.cpp:91-144 | a step keeps the fighters ordered 0.72 apart, within 11.84, facing each other, with health not negative and attacks in their time |
| `Fight.RunSound` | native/src/game.cpp:16-31 | so does every run that starts with a new match |
| `Fight.HealthNeverRises` | native/src/game.cpp:91-144 | within a round no step raises a fighter's health |
| `Fight.DamageByLanding` | native/src/game.cpp:71-89 | a step takes from each fighter exactly the damage of the other's landing attack |
| `Fight.LandsOnce` | native/src/game.cpp:71-89 | over any run an attack that has landed does not land again while it goes on |
| `Fight.AttackBegan` | native/src/game.cpp:33-41 | every attack under way in a run began at an earlier state with age zero and has gone on since |
| `Fight.TestedBeforeExpiry` | native/src/game.cpp:91-92 | in every run from a new match an attack that expires began at some state, went on from there, and was resolved inside its active window at least once |
| `FightRuns.Walks` | native/src/game.cpp:43-47 | without an opponent near or attacking, a step takes the player 4.6 times the axis and the time step along, 0.28 of that in an attack, up to the end of the stage |
| `FightRuns.ApartMeans` | native/src/game.cpp:128-133 | fighters who stand too near are moved to exactly 0.72 apart about their midpoint; others stay |
| `FightRuns.Flight` | native/src/game.cpp:49-58 | in the air half the squared speed plus 19 times the height is lost by 180.5 times the squared time step only, and the height follows the speed |
| `FightRuns.RunLevel` | native/src/game.cpp:49-58 | in every run from a new match the player never rises above 1.3653 and the opponent never leaves the ground |
| `FightRuns.RunJudged` | native/src/game.cpp:98-142 | in every state of such a run the round is over exactly if its time or somebody's health is used up, and its end has lasted less than 2.2 |
| `FightRuns.NewRound` | native/src/game.cpp:91-106 | a restart begins the same round anew and the 2.2 after its end the next one, with the fighters 4.8 apart and all health and time; nothing else changes the round, and while an ended round waits only its waiting time changes |
| `FightRuns.TimeAddsUp` | native/src/game.cpp:91-140 | while a round is fought its time and the time elapsed add up, each step counting for at most a twentieth |
| `FightRuns.RoundEnds` | native/src/game.cpp:140-142 | no round is fought longer than its time |
| `FightRuns.Blows` | native/src/game.cpp:83-88 | a step displaces a fighter by 0.48 or 0.24 away from the other and sets a flash of 0.14 exactly if the other's attack lands; otherwise the flash fades with time |
| `FightRuns.RunTimed` | native/src/game.cpp:33-41 | in every state of every run from a new match a heavy attack under way is younger than 0.52 and a light one younger than 0.34 |
| `Tim.ParsedOf` | tools/tim_tool.py:107-173 | every parsed texture has its sections in bounds and in order, whole palettes, and the width its mode gives |
| `TimPixels.TextureIff` | tools/tim_tool.py:74-173 | the parser accepts exactly the textures, given by the words and halfwords of the file, and returns their layout |
| `Tim.Scan` | tools/tim_tool.py:176-194 | the textures found are disjoint and ascending, and every other parseable start lies inside one of them |
| `Tim.Decode` | tools/tim_tool.py:212-266 | the decoding loops produce the pixels of every row under the chosen palette, which `TimPixels.PixelAt` gives in closed form |
| `TimPixels.PixelAt` | tools/tim_tool.py:197-266 | in all four modes and under every palette the pixel in column x of row r is given by the bytes of the file: which nibble, byte, halfword or three bytes it is read from, which entry of which palette it selects, and the three five-bit fields and top bit of the colour |
| `Tim.DecodedSize` | tools/tim_tool.py:143-160 | a texture decodes to its height in rows of its pixel width |
| `TimImport.Reencode` | tools/tim_import.py:398-491 | the in-place re-encoding is the specified one under every policy; its check of its own output never fails |
| `TimImport.ReencodesIff` | tools/tim_import.py:398-471 | under every policy it succeeds if and only if the texture and picture fit together and every pixel can be written: valid and in the palette or with its transparency there, shown by some word or rounding to one, or opaque |
| `TimImport.GetPut` | tools/tim_import.py:398-491 | re-encoding a texture's own decoded pixels returns the identical bytes, in all four modes |
| `TimImport.PutGet` | tools/tim_import.py:398-491 | a successful exact re-encoding has the same layout and decodes to exactly the given pixels |
| `TimImport.LayoutKept` | tools/tim_import.py:473-488 | under every policy size, headers and colour tables stay, and no byte outside the image section changes |
| `TimImport.RowTailsKept` | tools/tim_import.py:448-469 | the bytes of a row that hold no whole pixel stay |
| `TimImport.SelectedIff` | tools/tim_import.py:282-332 | without approximation an indexed pixel is accepted exactly if its transparency is valid and the palette shows it |
| `TimImport.NearestSelected` | tools/tim_import.py:304-322 | with approximation exactly if the palette has its transparency at all, and it gets the nearest such colour, the first of equally near ones |
| `TimImport.WordIff` | tools/tim_import.py:364-395 | without approximation a direct pixel is accepted exactly if some word shows it |
| `TimImport.QuantizedIff` | tools/tim_import.py:364-395 | with rounding a direct pixel is accepted exactly if its transparency is valid and it is not an opaque pixel with all channels at most 4 |
| `TimImport.RoundedNearest` | tools/tim_import.py:364-373 | quantising a channel picks the nearest of the 32 levels |
| `Png.Unfilter` | tools/tim_import.py:64-89 | the in-place loop restores a row for which the equations of section 9 hold: each byte differs from its filtered one, modulo 256, by zero, the left byte, the byte above, half their sum, or the nearest of the three neighbours, as its type says; filter types above four are refused |
| `Png.UnfilteredDiffers` | tools/tim_import.py:64-89 | these equations hold for every restored row |
| `Png.UnfilterInverts` | tools/tim_import.py:64-89 | unfiltering undoes each of the five filters for every row and previous row |
| `Png.FilterInverts` | tools/tim_import.py:64-89 | each filter undoes unfiltering, so no two filtered rows restore to the same row |
| `Png.PaethNearest` | tools/tim_import.py:52-61 | the predictor is the neighbour nearest to the linear estimate, with the specification's order among equals |
| `PngStream.Decode` | tools/tim_import.py:92-232 | the chunk loop and the row loop compute the specified decoding |
| `PngStream.DecodesIff` | tools/tim_import.py:92-232 | a file decodes to a picture exactly if it consists of valid chunks in the one permitted order whose data, however split, inflate to the picture's rows under some filters |
| `PngStream.PictureScans` | tools/tim_import.py:92-232 | every row of a decoded picture stands to the inflated data of the file, at its place there, as the equations of section 9 for its filter type say |
| `PngStream.HeaderPlaced` | tools/tim_import.py:100-165 | a decoded file begins with the signature and a header chunk whose bytes spell the width and height, most significant byte first, then 8, 6, 0, 0, 0 and the check sum |
| `PngStream.Encode` | tools/tim_tool.py:269-295 | the encoder writes header, one data chunk and end, or refuses |
| `PngStream.RoundTrip` | tools/tim_tool.py:275-295 | decoding an encoded picture returns it, if and only if it is within the size limit |
| `Lz.Periodic` | tools/prepare_jun_ui.py:52-53 | a back-reference, overlapping or not, yields the periodic extension of the output so far |
| `Lz.Decompress` | tools/prepare_jun_ui.py:28-57 | the decoding loops apply the tokens of the stream in order and report the bytes used |
| `Lz.DecodesIff` | tools/prepare_jun_ui.py:28-57 | a stream decodes to an image and an end exactly if there lies an encoding, of that length, of tokens that mean the image |
| `Lz.ReferenceExists` | tools/prepare_jun_ui.py:46-48 | every distance up to 2048 with every length up to 32 has a reference |
| `Lz.ReferenceRead` | tools/prepare_jun_ui.py:46-48 | the two bytes a reference is read from are, as one big-endian number, its distance modulo 2048 and 2048 times its length modulo 32 |
| `Lz.ReferencesDiffer` | tools/prepare_jun_ui.py:46-48 | no two references mean the same |
| `Lz.LiteralStream` | tools/prepare_jun_ui.py:59-66 | the encoder writes groups of up to seven literals |
| `Lz.LiteralRoundTrip` | tools/prepare_jun_ui.py:28-66 | a literal stream before any tail decodes to the data and its own length, if and only if the data are within 0x200000 bytes |
| `Movies.Discover` | tools/xas_tool.py:508-596 | accepts exactly the concatenations of movies, as many as expected; region k spans the sectors of movie k and reports its frames, dimensions and chunks |
| `Movies.AcceptableIff` | tools/xas_tool.py:508-596 | a sequence of valid headers is acceptable exactly if it is a concatenation of movies |
| `Movies.SameMovies` | tools/xas_tool.py:508-596 | the movies are determined by the headers |
| `Movies.RegionsAreMovies` | tools/xas_tool.py:519-549 | one region for every movie, in order, from where it begins to where the next one does, with its number of frames, dimensions, chunk counts and chunk total |
| `Movies.RegionsCover` | tools/xas_tool.py:519-549 | the regions one behind the other are all the sectors |
| `Movies.StretchesAcceptable` | tools/xas_tool.py:519-549 | the sectors of each region are acceptable by themselves, with a single movie start |
| `Movies.RegionAlone` | tools/xas_mod.py:351-356 | running the recogniser on one region's sectors finds that region alone |
| `Movies.NumbersCount` | tools/xas_tool.py:531-533 | within a movie the frame numbers count from one, so this check never fails |
| `Arc.Parse` | tools/arc_tool.py:81-152 | accepts exactly the well-formed records and returns the archive of some payloads |
| `Arc.WellFormedIff` | tools/arc_tool.py:81-152 | a record is well formed exactly if it encodes payloads |
| `Arc.EncodeInjective` | tools/arc_tool.py:81-152 | payloads and padding are determined by the record |
| `Arc.Rebuild` | tools/arc_tool.py:389-456 | succeeds exactly if the replacements are in order and the size fits, and encodes the replaced payloads; the internal parse never fails |
| `Arc.RebuildNothing` | tools/arc_tool.py:389-456 | without replacements the record comes back byte for byte |
| `Arc.ParseRebuilt` | tools/arc_tool.py:389-456 | parsing a rebuild finds the old members with only the replaced payloads changed |
| `Overlays.ValidateTable` | tools/bns_tool.py:106-122 | accepts exactly the tables in which each record ends before the next |
| `Overlays.RecordsApart` | tools/bns_tool.py:115-122 | any two records of an accepted table are disjoint |
| `Overlays.Prepare` | tools/bns_mod.py:397-480 | the overlays of a package, if its identifiers are distinct and every replacement has the exact size; none exactly otherwise |
| `Overlays.FindRepeats` | tools/bns_mod.py:528-557 | no record or member is replaced twice, and no record both as a whole and in parts |
| `Overlays.PackageApart` | tools/bns_mod.py:397-480 | all overlays of one accepted package are pairwise disjoint and lie on the disc |
| `Overlays.OrderIrrelevant` | tools/bns_mod.py:483-489 | disjoint overlays give the same disc in any order |
| `Overlays.SpliceIsRebuild` | tools/bns_mod.py:462-466 | writing any list of member replacements at their places in a record equals writing back the rebuilt record |
| `OverlayDisc.MemberSplice` | tools/bns_mod.py:462-466 | writing an accepted member overlay at the disc offset computed from the parsed directory equals writing back the record rebuilt with that member |
| `OverlayDisc.RebuiltAfter` | tools/bns_mod.py:397-480 | after a package an archive not replaced as a whole reads as its exact-size rebuild with exactly the package's members replaced |
| `OverlayDisc.PackageReads` | tools/bns_mod.py:397-480 | every record of the written disc reads as its whole replacement, its rebuilt archive, or the stock bytes |
| `OverlayDisc.OutsideAfter` | tools/bns_mod.py:397-480 | nothing outside the records changes |

## Left out

- Concurrency, I/O, argument parsing, hashes, reports, installation into actors, rendering, audio mixing and resampling.
- SHA-256 checks of the inputs, which the models take as verified.
- The damage, flag, reaction and counter words of a record (`native` in `JunConvert.Source`) are inputs of the pack
  writer; the hit tables behind them, the separate table file and its loader are not modelled.
- The recorded moves, the engine's entry points and the contact groups are inputs; how they are read from the manifest and
  the source memory is not modelled, nor are the scripts of the animation events.
- The converter goes on after a cancel row or timed property without a translation and reports all of them at its end; the
  model stops at the first record with one. The result is the same: the whole conversion fails.
- The copies of the input sequences beside the arena, the tables file, the reaction tables and the actor tables of the loader
  are not modelled; whether the sequences and the tables file find their place is an input of `JunCombat.Combat.Load`.
- The arrays of clip addresses and offsets are sequences that the loader extends; their fixed size is the record limit.
- Pictures and decoded textures are rows of pixels, and PNG data are rows of bytes; the flat buffers they are cut from,
  and the check that a flat buffer has the right length, are not modelled.
- The re-encoder maps all rows before it writes any; in the direct modes the code maps and writes pixel by pixel.
- The reports of changed pixels, the palette choice on the command line and the sorting of a package's overlays, which
  their disjointness makes irrelevant.
- Floating point rounding in the fight simulation, which is modelled over the reals, and its camera. The header with the
  default field values of a match is not part of this model: start health and round time are parameters, all other
  fields start at zero.
- A guest arena that ends exactly at the top of the 32-bit address space.
- The 32-bit overflow of entries in the change of basis: entries come from halfwords.
- The three further acceptors of archive records, the ISO directory walk, the voice table and the ROM lane interleave.
