# Duke Nukem II core, modelled in Dafny

This project models the engine core of the reconstructed Duke Nukem II
source in Dafny and proves properties of that model. The core has five
parts:

- **The world engine.** Map cells and tile attributes (`Tiles`) and the
  world collision test (`Collision`). The effect and player-shot pools
  (`Pools`). Blowing up and moving map sections (`MapEdit`). Backdrop
  scrolling with the earthquake and reactor effects (`Backdrop`). One
  frame of the in-game loop as a trace of drawing events (`Renderer`).
- **Starting a level.** The level header and actor list, difficulty
  markers, spawning passes, camera centring, damage and respawn
  (`LevelStart`). The map geometry, level flags and the backdrop pixel
  shifts (`LevelUtil`). The run-length codec of the extra map data
  (`Rle`).
- **Text, menus and scripts.** C strings, the random number table and the
  palette remap (`CoreUtil`). Script token navigation (`ScriptTokens`) and
  the decision-carrying script commands (`ScriptCommands`). `DrawText`
  and the name-entry dialogs (`Ui1`). Key rebinding and the options menus
  (`Ui2`). The keyboard handler and file names (`Unit1`). The big fonts
  (`Draw3`).
- **Bookkeeping.** Inventory and HUD gauges (`Inventory`), the boss bar
  and message gating (`Hud3`), the high score list (`HiScore`), bonuses
  (`Bonus`) and demo recording and playback (`Demo`).
- **Media.** Palette fades (`ScrFade`). The FLIC video player and its
  per-frame delays and sounds (`Video1`, `Video2`). The PC speaker and
  AdLib effect players (`BasicSnd`). The Sound Blaster library
  (`DigiSnd`). AdLib music (`Music`). The `PlaySound` routing (`Sound`).

C's fixed-width arithmetic is written out. A 16-bit `word` is wrapped
with `Wrap16` after every addition that can overflow. Bytes wrap with
`% 256`. Signed chars and shorts are decoded explicitly.

Side effects become data:

- blits, palette writes, AdLib register writes and hardware requests are
  returned as lists of events;
- memory that the C code reads through pointers is a `Memory` function
  or a sequence passed in;
- key presses are a sequence of scancodes.

Several inputs are parameters rather than constants:

- sprite metadata and actor ids;
- the sound priority table and the `NUM_SOUNDS`/`STARTADLIBSOUNDS` split;
- hardware probe results.

The 256-entry random number table is transcribed as a constant.
Every loop that can run without end in C is proved to end, given a
`fuel` bound, excluded by a `requires` or returned as None; each case
is listed under "Left out".

## Model

| member | source | states |
|---|---|---|
| Common.XyToOffsetDecodes | SRC/COMMON.H:69 | on the 40-column tile screen the byte offset `x*8 + y*320` determines its tile column and row and is a multiple of 8 |
| Common.T2pxIsColumnOffset | SRC/COMMON.H:72 | converting a tile count to pixels with `<< 3` gives the horizontal screen offset of that tile column |
| Common.LastScancode | SRC/COMMON.H:75 | the masked key number is always below 0x80 |
| Common.ScancodeSplit | SRC/COMMON.H:74-75 | a scancode is its key number plus 0x80 exactly when it is a release, so the two macros lose nothing |
| Common.ScancodeRoundTrip | SRC/COMMON.H:74-75 | encoding a key with a press/release flag and decoding it with the two macros gives the key and the flag back |
| CoreUtil.Strlen | SRC/COREUTIL.C:219-228 | the length is the index of the first NUL: a NUL there and none before it |
| CoreUtil.StrlenUnique | SRC/COREUTIL.C:219-228 | any index holding the first NUL is the length |
| CoreUtil.CStrOfStored | SRC/COREUTIL.C:219-228 | a NUL-free string stored with a terminator reads back as itself |
| CoreUtil.ToUpperProperties | SRC/COREUTIL.C:175-178 | the result is never a lowercase letter, is unchanged exactly on non-lowercase characters, is idempotent, keeps NUL, and maps a lowercase letter 32 code points down |
| CoreUtil.Uppercased | SRC/COREUTIL.C:185-195 | the uppercase image has the same length and each character is the uppercase of the source's |
| CoreUtil.CopyStringUppercased | SRC/COREUTIL.C:185-195 | the destination holds the uppercased source string, terminated, and bytes after the terminator are untouched |
| CoreUtil.StartsWithFromSpec | SRC/COREUTIL.C:203-211 | the comparison loop from position i answers true exactly when the two strings agree on the shorter one's length and that length is non-zero |
| CoreUtil.StringStartsWithSpec | SRC/COREUTIL.C:199-215 | StringStartsWith is true exactly when the strings agree up to the end of the shorter one, so "AB" starts "ABC" and also "ABC" starts "AB" |
| CoreUtil.RngIndexAfterIsSum | SRC/COREUTIL.C:259-261 | after n calls the index has advanced by n modulo 256 (a byte increments and wraps) |
| CoreUtil.RngOutputAt | SRC/COREUTIL.C:259-261 | the k-th value of a run of calls is the table entry at the start index plus k+1, modulo 256 (pre-increment) |
| CoreUtil.RngPeriod | SRC/COREUTIL.C:232-236 | after 256 calls the index is back where it started and the output sequence repeats with period 256 |
| CoreUtil.PaletteRegisterRemap | SRC/COREUTIL.C:148-151 | on the 16 EGA colours the remap `index > 7 ? index + 8` is injective, keeps 0..7 and never hits registers 8..15 |
| Demo.PacketRoundTrip | SRC/DEMO.C:191-208 | decoding the byte RecordDemoInput packs for a frame gives the frame back; bit 6 is unused, so a packet is never the end-of-demo marker 0xFF |
| Demo.InputBitsRoundTrip | SRC/DEMO.C:88-93 | re-encoding the six decoded input flags reproduces the low six bits of the packet |
| Demo.InitDemoRecording | SRC/DEMO.C:127-133 | when recording, the recording restarts empty; when not recording, it is a no-op |
| Demo.RecordDemoInputAppends | SRC/DEMO.C:179-209 | while recording, one call appends exactly the frame's packet to the recorded stream (chunk flushes included) and returns the frame's next-level flag |
| Demo.FinishDemoRecording | SRC/DEMO.C:154-166 | the file ends up holding everything recorded followed by the 0xFF end marker, and recording stops; a no-op when not recording |
| Demo.Packets | SRC/DEMO.C:191-208 | one packet per frame, in order |
| Demo.RecordFramesAppends | SRC/DEMO.C:179-209 | recording a run of frames appends their packets in order |
| Demo.RecordedDemoFile | SRC/DEMO.C:127-209 | a complete recording session writes the frames' packets followed by 0xFF |
| Demo.InitDemoPlayback | SRC/DEMO.C:52-58 | playback starts with no frame processed, so the first read loads a chunk |
| Demo.Refill | SRC/DEMO.C:70-74 | a refill restarts the chunk position at zero |
| Demo.RefillPending | SRC/DEMO.C:70-74 | reading a chunk moves bytes from the file into the buffer without losing or reordering any pending byte |
| Demo.ReadDemoInputConsumes | SRC/DEMO.C:67-105 | ReadDemoInput consumes the next pending byte: 0xFF quits and keeps the inputs; any other byte sets the six inputs from its low bits and returns bit 7 as the next-level flag |
| Demo.PlayFramesDecodes | SRC/DEMO.C:67-105 | reading as many frames as there are non-marker packets decodes each packet in order and leaves exactly the rest pending |
| Demo.DemoRoundTrip | SRC/DEMO.C:52-209 | playing back a recorded demo reproduces every recorded frame, including the next-level flags, and the read after the last frame quits |
| HiScore.EmptyListAcceptsAnyPositiveScore | SRC/HISCORE.C:37-82 | the list written for a missing file is descending with empty names, and a score enters it exactly when it is positive |
| HiScore.TryAddHighScore | SRC/HISCORE.C:157-189 | the score goes to the first slot whose score it strictly beats, earlier entries stay, later ones move down one with their names copied in uppercase, the new name is empty; if it beats none, the list is unchanged |
| HiScore.InsertedScores | SRC/HISCORE.C:170-181 | the new score list is the old one with the score inserted at the slot and the last entry dropped |
| HiScore.TryAddHighScoreKeepsOrder | SRC/HISCORE.C:157-189 | inserting into a descending list keeps it descending, and the scores change by adding the new one and dropping the old lowest |
| HiScore.HighScoreRowsOrdered | SRC/HISCORE.C:134-145 | entry rows go from 6 down to 16 in order and skip row 7, the gap below the top entry |
| HiScore.InsertionDescending | SRC/HISCORE.C:165-180 | inserting a score before the first entry it beats, shifting the rest down, keeps a descending list descending |
| HiScore.InsertionMultiset | SRC/HISCORE.C:170-179 | the scores after insertion are the old ones with the last entry dropped and the new score added |
| Bonus.EarnedFrom | SRC/BONUSSCR.C:188-239 | the granted bonus numbers are earned, in increasing order |
| Bonus.EarnedFromIff | SRC/BONUSSCR.C:188-239 | a bonus number appears in the granted list exactly when its condition holds |
| Bonus.BonusConditions | SRC/BONUSSCR.C:188-239 | bonuses 1, 3, 4 and 5 need all of a non-zero count done; bonus 2 needs no damage taken; bonuses 6 and 7 need zero bomb boxes or orbs left, and so are granted when the level had none |
| Bonus.NoBonusAlone | SRC/BONUSSCR.C:241-246 | the "no bonus" animation 0 plays exactly when no bonus applies, and then alone |
| Bonus.ApplyBonus | SRC/BONUSSCR.C:35-146 | bonus 0 leaves the score alone; any other adds 100000 in 100 steps of 1000, each frame showing the score so far and the points still to add, with 32-bit wrap-around |
| Bonus.ScoreAfterCountsBonuses | SRC/BONUSSCR.C:130-139 | a run of non-zero bonus animations adds 100000 per bonus, modulo 2^32 |
| Bonus.ShowBonusScreenScore | SRC/BONUSSCR.C:155-260 | the bonus screen adds 100000 points for each bonus that applies |
| Inventory.EndFrom | SRC/HUD1.C:178-181 | the index found is the first 0 at or after the start |
| Inventory.Count | SRC/HUD1.C:178-181 | the number of items held never exceeds the six slots |
| Inventory.AddInventoryItem | SRC/HUD1.C:168-191 | the item goes into the first free slot with the list re-terminated and its blink timer cleared, so the held items become the old ones followed by the new one; with all six slots full the call writes past the array and the model returns None |
| Inventory.SearchFrom | SRC/HUD1.C:207-214 | the search stops at the first slot holding the item or the end marker, and no earlier slot holds either |
| Inventory.CloseGapSpec | SRC/HUD1.C:233-244 | closing the gap at slot j shifts every later item and blink timer up by one, puts the terminator one slot earlier and leaves the other slots alone |
| Inventory.RemoveFromInventory | SRC/HUD1.C:201-250 | removal keeps the inventory well formed (terminated, blink timers only on held items) |
| Inventory.RemoveAbsent | SRC/HUD1.C:207-214 | removing an item that is not held returns false and changes nothing |
| Inventory.RemoveStartsBlinking | SRC/HUD1.C:221-224 | the first removal of a held item only starts its 10-frame blink timer and returns true |
| Inventory.RemoveDeletes | SRC/HUD1.C:225-246 | removing an item whose blink has started deletes its first occurrence from the list, keeps the order of the rest and shifts their blink timers with them |
| Inventory.AnimationCountsDown | SRC/HUD1.C:254-303 | while no timer is at 1, an animation pass only decrements the running blink timers of held items |
| Inventory.AnimateSlotRemovesExpired | SRC/HUD1.C:295-298 | a slot whose blink timer reaches 1 is removed from the list for good |
| Inventory.ClearInventory | SRC/HUD1.C:307-313 | clearing empties the list by writing only slot 0; the other slots and the timers are untouched |
| Inventory.HealthGauge | SRC/HUD1.C:43-75 | for health 1 to 9, slice i is drawn filled exactly when i < health - 1; health 0 wraps and fills every slice |
| Inventory.AmmoGauge | SRC/HUD1.C:110-141 | ammo is clamped to 32 and rounded up to even, each two rounds moving the icon 8 bytes left of the full-gauge icon, which stays tile-aligned |
| Hud3.EraseBar | SRC/HUD3.C:52-55 | the erase loop covers exactly columns 6 to 35 with the empty piece |
| Hud3.FullPieces | SRC/HUD3.C:66-69 | one full 8-pixel piece per column from column 6 on |
| Hud3.BossBarShowsHealth | SRC/HUD3.C:43-74 | the bar drawn is exactly `health` pixels wide when positive and empty otherwise |
| Hud3.BossBarLayout | SRC/HUD3.C:43-74 | the 30 erase icons come first, then health/8 full pieces and one remainder piece in consecutive columns from 6 |
| Hud3.BossBarWithinErasedColumns | SRC/HUD3.C:47-50 | the drawn bar stays inside the 30 erased columns exactly when health is below 240, so a longer bar leaves stale pieces past column 35 |
| Hud3.Icons | SRC/HUD3.C:78-111 | one draw per icon, in order |
| Hud3.DrawBossHealthBarBothPages | SRC/HUD3.C:78-111 | the boss bar is activated and the same label and bar are drawn on the display page and then on the other page |
| Hud3.ShowInGameMessageGating | SRC/HUD3.C:119-135 | a message starts (first character, no delay) exactly when no hint machine message is up and the level is not a boss level; otherwise nothing changes |
| Hud3.ShowTutorialAtMostOnce | SRC/HUD3.C:139-146 | a tutorial marks itself shown, leaves the other flags alone, and a second call for the same tutorial changes nothing |
| Draw3.DrawColorizedChar | SRC/DRAW3.C:51-81 | four sprite draws, one per bit plane in order, each of the glyph or of the blank frame |
| Draw3.ColorizedCharShowsColor | SRC/DRAW3.C:51-81 | the four plane sprites go to (x+2, y-1) on planes 0..3 and together encode the colour's low four bits |
| Draw3.PlaneBits | SRC/DRAW3.C:51-81 | plane p shows the glyph exactly when bit p of the colour is set |
| Draw3.SpriteFontFrame | SRC/DRAW3.C:156-183 | every sprite-font character maps to a frame up to 66 other than the blank frame 40 |
| Draw3.SpriteFontRoundTrip | SRC/DRAW3.C:94-113 | the sprite font maps characters to frames one to one: each frame other than 40 shows exactly one character, and that character maps back to it |
| Draw3.StatusFontTile | SRC/DRAW3.C:115-153 | status font characters sit at even tile columns up to 38 |
| Draw3.StatusFontTileRoundTrip | SRC/DRAW3.C:115-153 | the status font layout is invertible: the tile of a character identifies the character |
| Draw3.StatusFontIconAt | SRC/DRAW3.C:115-153 | each status font character (digits, A-Z, ?,.! and space) is drawn from the icon at its tile, 2 tiles apart |
| Draw3.StatusFontIconsDistinct | SRC/DRAW3.C:115-153 | different status font characters are drawn from different icons |
| Draw3.DrawBigTextChar | SRC/DRAW3.C:92-186 | with colour 16 at most one status icon, present exactly when the character has one, one tile up; otherwise nothing for a space and four plane draws at (x+2, y-1) for any other character |
| Draw3.BigTextCharShowsGlyph | SRC/DRAW3.C:154-185 | in the sprite font a character is drawn in the requested colour from its own glyph frame |
| Draw3.BigTextLayout | SRC/DRAW3.C:196-218 | one character placement per character of the string |
| Draw3.BigTextLayoutSnoc | SRC/DRAW3.C:201-217 | appending a character places it `Advance` tiles per preceding character from x |
| Draw3.DrawBigText | SRC/DRAW3.C:196-218 | the loop with its `pos++` in the status font places every character of the string exactly as the two-tile/one-tile layout says |
| Draw3.BigTextCellsAbut | SRC/DRAW3.C:201-217 | consecutive characters are exactly one advance apart: 2 tiles in the status font and 1 otherwise |
| LevelStart.HeaderWord | SRC/LVLHEAD.H:34-36 | a header word is read little-endian: its low byte is at the offset and its high byte at the next one |
| LevelStart.HeaderWordReadsWordBytes | SRC/LVLHEAD.H:34-36 | reading a word back from where its two little-endian bytes were stored gives the word |
| LevelStart.EncodeDescsAt | SRC/LVLHEAD.H:42-44 | in an encoded actor list, description k is read back from byte 6k |
| LevelStart.HeaderRoundTrip | SRC/MAIN.C:150-196 | a header built from filenames, flags, an actor list and a map width reads back as the same filenames at 0/13/26, the same width at N-2, 3 words per actor at 43, the same flags at 39-40, and each actor description at 45 + 6k |
| LevelStart.HeaderFilenames | SRC/LVLHEAD.H:29-31 | the three filename slots of a built header hold the filenames written there |
| LevelStart.HeaderFields | SRC/MAIN.C:181-195 | the width, actor-list size and flags LoadLevelHeader reads from a built header are the ones written |
| LevelStart.HeaderDescs | SRC/LVLHEAD.H:42-44 | the id, x and y macros at 45 + 6k read back actor k of a built header |
| LevelStart.LoadLevelHeader | SRC/MAIN.C:150-196 | the map width is the little-endian word ending the header and the actor-list size the word at 43, and the map size is set from the width as SetMapSize does |
| LevelStart.DifficultyMarkerTable | SRC/MAIN.C:261-271 | on easy both marker types skip the next actor, on medium only the hard-only marker does, and on hard neither does |
| LevelStart.Descriptions | SRC/MAIN.C:286-287 | a list of whole descriptions is read as one description per 6 bytes |
| LevelStart.ActorWalk | SRC/MAIN.C:286-297 | the walk visits descriptions in increasing order, never a marker |
| LevelStart.NoMarkersVisitsAll | SRC/MAIN.C:286-297 | with no marker in the list every description is visited, in order |
| LevelStart.MarkerHidesNext | SRC/MAIN.C:291-295 | a marker hides itself and the description after it, and the walk resumes two descriptions later |
| LevelStart.LoadSpritesForLevel | SRC/MAIN.C:278-300 | no marker id has its sprite loaded |
| LevelStart.SpawnPassOffersMatching | SRC/MAIN.C:401-426 | one pass offers exactly the visited descriptions whose draw index equals the pass number, in list order |
| LevelStart.SpawnPassReadsDescriptions | SRC/MAIN.C:416-420 | each spawn attempt carries the id, x and y of the description it was made for |
| LevelStart.SpawnPassSlots | SRC/MAIN.C:421-424 | each attempt uses the slot after the successful spawns so far |
| LevelStart.SpawnPassCounts | SRC/MAIN.C:421-424 | the actor count advances once per successful spawn, modulo 2^16 |
| LevelStart.MatchingCount | SRC/MAIN.C:414-416 | a description is matched once in a pass if it is visited and its draw index is the pass number, and otherwise not at all |
| LevelStart.SpawnPassesOffers | SRC/MAIN.C:396-426 | over the passes from `pass` to 3, each visited description is offered once when its draw index is one of those passes, and never otherwise |
| LevelStart.SpawnPassesCount | SRC/MAIN.C:396-426 | over all passes the actor count advances once per successful spawn |
| LevelStart.DrawnIsMatched | SRC/MAIN.C:396 | the draw indices the passes -1 to 3 match are 0xFFFF and 0 to 3 |
| LevelStart.SpawnLevelActorsSpec | SRC/MAIN.C:373-432 | every visited (non-hidden) description with draw index -1..3 is offered for spawning exactly once, no other is, and gmNumActors ends up advanced by the number of successful spawns |
| LevelStart.ClampAxis | SRC/MAIN.C:348-356 | the camera coordinate is 0, within the limit, or the unclamped position |
| LevelStart.CenterViewIsClamp | SRC/MAIN.C:346-369 | for positions below 0x8000 the camera is the player position minus 15 (x) and 19 (y), clamped to 0 and to the last viewport position |
| LevelStart.CenterViewShowsPlayer | SRC/MAIN.C:346-369 | for a player inside the map the camera puts the player inside the 32x20 viewport |
| LevelStart.DamagePlayerSpec | SRC/MAIN.C:452-482 | damage is ignored in tec mode, while cloaked, during mercy frames or when dying; otherwise health drops by one (16-bit), and a new health of 1 to 11 gives the pain sound and 50 - 10 x difficulty mercy frames, while any other new health kills the player, flagging a ship death |
| LevelStart.NoDamageDuringMercyFrames | SRC/MAIN.C:458-468 | after a non-fatal hit an immediate second hit does nothing |
| LevelStart.HitsUntilDeathCounts | SRC/MAIN.C:452-482 | with mercy frames expiring between hits, a player with health h (1 to 12) dies on exactly the h-th hit |
| LevelStart.FullHealthTakesNineHits | SRC/MAIN.C:452-482 | from full health (9) the player survives eight hits and dies on the ninth |
| LevelStart.ResetGameState | SRC/MAIN.C:542-608 | effects, shots and the per-attempt state are always reset; with a beacon activated the level progress is kept, without one it is reset to the level-start values with full health, no moving map parts and an empty inventory |
| LevelUtil.SetMapSize | SRC/LVLUTIL1.C:37-72 | for the six valid widths the shift is log2 of the width and the bottom row is 32768/width - 2; any other width leaves the size unchanged |
| LevelUtil.WidthIsPowerOfTwo | SRC/LVLUTIL1.C:37-72 | the valid widths are 2^5 to 2^10 |
| LevelUtil.MapSizeFillsBuffer | SRC/LVLUTIL1.C:37-72 | for every valid width the rows up to bottom + 2 fill the 32768-word map exactly, leaving at least 30 visible rows |
| LevelUtil.ParseLevelFlags | SRC/LVLUTIL1.C:76-88 | the secondary backdrop number is taken as given |
| LevelUtil.EncodeLevelFlags | SRC/LVLUTIL1.C:76-88 | the flag byte written for a level never sets bit 2 |
| LevelUtil.LevelFlagsRoundTrip | SRC/LVLUTIL1.C:76-88 | parsing the encoded flag byte gives the same seven flags and secondary backdrop, whatever the unused bytes hold |
| LevelUtil.LevelFlagsIgnoreBitTwo | SRC/LVLUTIL1.C:76-88 | bit 2 of the flag byte is ignored, and parsing loses nothing else |
| LevelUtil.VerticalOverreadIsOverwritten | SRC/LVLUTIL1.C:98-204 | the bytes the copy loops read past the end of the source image never reach the result |
| LevelUtil.VerticalLoopsReadPastSource | SRC/LVLUTIL1.C:98-204 | the copy loops on their own do read past the source image: the last byte they write comes from beyond it |
| LevelUtil.ShiftedByte | SRC/LVLUTIL1.C:98-204 | every byte of the result is copied from the source byte four pixel lines further down, wrapping at the bottom |
| LevelUtil.VerticalIndex | SRC/LVLUTIL1.C:98-204 | in the tile-planar layout, the byte of pixel (x, y+4) is the vertical source of the byte of pixel (x, y) |
| LevelUtil.ShiftPixelsVerticallyRotates | SRC/LVLUTIL1.C:90-204 | every pixel of the result, on every plane, is the source pixel four lines below it, wrapping around |
| LevelUtil.NextTileByte | SRC/LVLUTIL1.C:216-309 | the byte of the next tile to the right stays inside the image |
| LevelUtil.ShiftByteRotates | SRC/LVLUTIL1.C:244-305 | for amounts 2 and 4 each pixel bit of a shifted byte is the bit `amount` places right of it, taken from the next tile's byte once it runs off the end |
| LevelUtil.ShiftByteAmountOneIsNoRotation | SRC/LVLUTIL1.C:206-251 | as the source's comment warns, amount 1 is not a rotation: the bit that should come from the next tile is lost |
| LevelUtil.HorizontalIndex | SRC/LVLUTIL1.C:216-309 | moving `amount` pixels right stays in the same plane byte or moves to the same byte of the next tile, wrapping at the right edge |
| LevelUtil.ShiftPixelsHorizontallyRotates | SRC/LVLUTIL1.C:206-309 | for amounts 2 and 4 every pixel of the result, on every plane, is the source pixel `amount` columns to its right, wrapping around |
| MapEdit.SetTile | SRC/COMMON.H:238 | Map_SetTile changes the one cell it names and no other |
| MapEdit.RowCellsSpec | SRC/GAME2.C:882-898 | the inner loop visits x = from, from+1, ... up to but excluding `to`, once each |
| MapEdit.SectionCellsMembers | SRC/GAME2.C:880-899 | the two loops visit exactly the cells of the section |
| MapEdit.SectionCellsSorted | SRC/GAME2.C:880-899 | the loops visit cells row by row, left to right, so none twice |
| MapEdit.SectionCellsLength | SRC/GAME2.C:880-899 | a section with left <= right and top <= bottom has (right - left) x (bottom - top) cells |
| MapEdit.NonZeroCellsMembers | SRC/GAME2.C:886-897 | the cells that get a record are exactly the visited cells holding a non-zero tile |
| MapEdit.NonZeroCellsSorted | SRC/GAME2.C:886-897 | the cells that get records keep the visiting order |
| MapEdit.MakeDebris | SRC/GAME2.C:888-892 | a record has horizontal speed 3 - r % 6 (between -2 and 3), start step r % 5 (at most 4), the tile value, and the cell's position relative to the camera |
| MapEdit.DestroyCellsTiles | SRC/GAME2.C:894 | every visited cell is cleared and every other cell is left alone |
| MapEdit.DestroyCellsDraws | SRC/GAME2.C:888-889 | two random numbers are drawn per record, none for an empty cell |
| MapEdit.DestroyCellsRecords | SRC/GAME2.C:880-899 | record k is the record of the k-th non-zero visited cell |
| MapEdit.DestroySection | SRC/GAME2.C:858-900 | the exploding section becomes the inclusive rectangle made exclusive (right + 1, bottom + 1, 16-bit) with tick count 1; its cells are cleared, one record per non-zero cell is written in row order, and the random index advances by two per record |
| MapEdit.DestroySectionRecordsEveryTile | SRC/GAME2.C:858-900 | every non-zero tile of the inclusive rectangle has a debris record with its tile value and screen position |
| MapEdit.SectionCellHasRecord | SRC/GAME2.C:880-899 | a non-zero cell of the section has its record |
| MapEdit.DestroySectionRecordCount | SRC/GAME2.C:858-900 | no more records are written than the rectangle has cells |
| MapEdit.DestroySectionFullRectangle | SRC/GAME2.C:858-900 | a rectangle without empty cells yields exactly one record per cell |
| MapEdit.MatchedCount | SRC/GAME2.C:886-897 | records and non-zero cells correspond one to one |
| MapEdit.RecordForCell | SRC/GAME2.C:886-897 | each non-zero visited cell has a record carrying its tile and screen position |
| MapEdit.DestroySectionRowMajor | SRC/GAME2.C:880-899 | the records are stored in the row-major order of their cells |
| MapEdit.NextTick | SRC/GAME2.C:947-951 | the tick counter steps by one and drops to 0 after tick 79, or when the byte wraps |
| MapEdit.ExplosionLength | SRC/GAME2.C:947-951 | an explosion started by Map_DestroySection at tick 1 is updated exactly 79 times |
| MapEdit.StepDebrisAsWritten | SRC/GAME2.C:933-941 | the update as written reads Y_MOVEMENT at the record's step, and that read is out of range exactly when the step is 11 or more |
| MapEdit.DebrisOverrunsTable | SRC/GAME2.C:918-941 | as written, every record, whatever its start step (0 to 4), reaches step 11 within the explosion and the next update reads past the 11-entry Y_MOVEMENT table |
| MapEdit.StepsReachEnd | SRC/GAME2.C:933-941 | n updates as written advance the step by n, keep the tile, and read out of range right after step 11 |
| MapEdit.StepDebris | SRC/GAME2.C:933-941 | the intended (corrected) update: the record moves by its horizontal speed and one Y_MOVEMENT entry, and its step stops at the last table entry instead of running past it |
| MapEdit.StepDebrisStaysInTable | SRC/GAME2.C:918-941 | the corrected update never leaves the table, and it agrees with the code as written for as long as the written code stays inside the table |
| MapEdit.DebrisDest | SRC/GAME2.C:904-910 | a debris tile is drawn exactly when it is strictly inside the 32x21 viewport, at the screen offset of its position |
| MapEdit.UpdateTileDebris | SRC/GAME2.C:914-952 | the intended behaviour of UpdateAndDrawTileDebris (with the corrected step, see Findings): no change while no explosion is running; otherwise the first (right-left) x (bottom-top) records advance one step, the rest of the buffer is untouched and the tick counter advances |
| MapEdit.MoveSection | SRC/UNIT1.C:327-387 | the inclusive rectangle ends up `distance` rows lower; source cells not overlapped by the destination become 0; every cell outside both rectangles keeps its value |
| Collision.AdjustBox | SRC/GAME2.C:589-624 | the box keeps the sprite's height, and only Duke's two actor ids are treated as the player |
| Collision.TopRow | SRC/GAME2.C:633-642 | the top row of the box read from the flat map, one cell per column of the box |
| Collision.Column | SRC/GAME2.C:644-655 | a column of the box read from the bottom row upward, one cell per row |
| Collision.ScanProjectileSpec | SRC/GAME2.C:633-657 | a projectile collides exactly when, scanning the top row and then the left column, the first cell that is composite or solid is a solid non-composite cell; it never reports a ladder or climbable |
| Collision.ScanSideSpec | SRC/GAME2.C:755-788 | the side scan hits exactly when a cell of the column has the blocking attribute (for Duke on stairs, one above the bottom row), and with stairs and no hit a stair step is found exactly when the bottom cell blocks |
| Collision.ScanDownSpec | SRC/GAME2.C:714-733 | moving down hits exactly when a bottom-row cell has a solid top; the conveyor reported is that of the last conveyor cell scanned up to and including the first solid-top cell (conveyor-right only when the row's last cell is conveyor-right or not solid), and without one the starting value is kept |
| Collision.CheckUp | SRC/GAME2.C:660-706 | moving up collides exactly when Duke is not under a climbable tile and some top-row cell has a solid bottom; a climbable is reported exactly for Duke with a climbable second cell; a ladder exactly for Duke, not blocked, with a ladder second cell or, pressing up alone, a ladder in the first or third cell; Duke moves one left onto a first-cell ladder, else one right, and otherwise stays |
| Collision.CheckWorldCollision | SRC/GAME2.C:574-837 | only the down check reports conveyors, only the up check moves the player horizontally, only the side checks move him up, climbables come only from up and ladders only from up or down |
| Collision.CheckDown | SRC/GAME2.C:709-740 | moving down never moves the player and never reports a climbable |
| Collision.CheckSide | SRC/GAME2.C:743-833 | moving sideways reports only collision or none and never moves the player horizontally |
| Collision.StairStep | SRC/GAME2.C:743-833 | for Duke in the normal state a blocking cell only in the bottom row is a stair step that moves him up one row without colliding, and a blocking cell higher up collides; for any other actor any blocking cell collides |
| Collision.SideScan | SRC/GAME2.C:743-833 | the same stair-step rule stated for the adjusted box |
| Collision.ProjectileScan | SRC/GAME2.C:628-657 | a projectile inside the map collides exactly when the first decisive cell of its top row and left column is solid and not composite |
| Collision.DownScan | SRC/GAME2.C:709-740 | moving down inside the map collides exactly when a bottom-row cell has a solid top; otherwise Duke is on a ladder exactly when his second column's cell is a ladder; the conveyor reported is that of the last conveyor cell scanned up to the first solid top, or none |
| Collision.DownRow | SRC/GAME2.C:709-740 | the same down rule, conveyor included, stated for the adjusted box |
| Collision.CollisionEdges | SRC/GAME2.C:596-796 | Duke at x = 0 moving left collides; a box reaching above the map top passes in every direction but down; a projectile at y = 0 passes; below the map bottom nothing collides; a side edge beyond the map width collides |
| Pools.FirstFreeFrom | SRC/GAME2.C:986-1011 | the scan from `from` stops at the first free slot, or at the end when none is free |
| Pools.FirstFreeSpec | SRC/GAME2.C:986-1011 | the slot chosen is exactly the lowest free slot, and the scan runs to the end exactly when every slot is busy |
| Pools.SpawnEffectSpec | SRC/GAME2.C:979-1012 | a fire bomb with no ground below is not spawned and reports true; any other effect occupies the lowest free slot with active 1, numFrames + 1 frames to live and the given position, type and delay, and reports false |
| Pools.SpawnEffectWhenFull | SRC/GAME2.C:979-1012 | with every slot busy nothing changes and the result is false |
| Pools.ActiveCountUpdate | SRC/GAME2.C:997-1000 | occupying a free slot raises the number of active slots by one |
| Pools.SpawnEffectOccupiesOneSlot | SRC/GAME2.C:979-1012 | a spawn occupies at most one slot: the active count rises by one exactly when the pool changes |
| Pools.SpawnBurnEffectSpec | SRC/GAME2.C:1051-1092 | a burn effect takes the lowest free slot with 18 frames, the source's sprite size and a position centred on the source sprite |
| Pools.SpawnBurnEffectWhenFull | SRC/GAME2.C:1051-1092 | with every slot busy the pool is unchanged |
| Pools.SpawnPlayerShotSpec | SRC/GAME2.C:1290-1398 | a shot takes the lowest free shot slot with its adjusted spawn position and direction, and a muzzle flash for the direction is spawned as an effect at the muzzle position |
| Pools.SpawnPlayerShotWhenFull | SRC/GAME2.C:1290-1398 | with every shot slot busy neither pool changes |
| Pools.ShotSpawnAdjustments | SRC/GAME2.C:1290-1370 | non-flame shots are nudged by direction: a horizontal laser fired left starts 2 tiles further left, a vertical laser fired down 3 tiles lower, and so on for each shot type |
| Pools.ResetEffectsAndPlayerShots | SRC/GAME2.C:841-854 | every slot of both pools is freed and nothing but the `active` fields changes |
| Pools.OffscreenBeforeDelay | SRC/GAME2.C:1163-1174 | an off-screen plain effect is freed before its spawn delay is looked at, and the delay is kept |
| Pools.UpdatePlainEffectN | SRC/GAME2.C:1163-1233 | updates never change a plain effect's type or lifetime |
| Pools.PlainEffectLifetime | SRC/GAME2.C:1163-1233 | a plain effect that stays on screen lives out its spawn delay and then exactly its remaining frames, and is freed on the last one |
| Pools.EffectTypesBelowNine | SRC/GAME2.C:1234 | the `type < 9` test selects exactly the seven table-driven movement types and none of the special ones (score number, burn, none, rise up) |
| Pools.ShotFromWords | SRC/GAME2.C:1406-1420 | a shot's six words and its fields determine each other, so writing a word of the image writes one field |
| Pools.MoveShot | SRC/GAME2.C:1406-1420 | a shot moves along its own axis only, by the speed table's magnitude, upward and leftward negative, with 16-bit wrap; nothing else changes |
| Pools.UpdateShotSurvivors | SRC/GAME2.C:1402-1567 | a shot is freed exactly when it carries the hit mark, leaves the screen, or is a regular or rocket shot hitting a wall; a surviving shot keeps its id and direction and moves only along its axis |
| Renderer.CellIndexInMap | SRC/GAME2.C:358-359 | every viewport cell read is inside the map data and its extra-data byte inside the extra data |
| Renderer.DestIsInjective | SRC/GAME2.C:323-511 | every viewport cell has its own screen destination: row r + 1 and column c + 1 of the 40-byte-wide screen |
| Renderer.BackdropBlit | SRC/GAME2.C:266-278 | a backdrop cell is one solid blit to its destination, from the fixed tile (39, 24) during the reactor destruction flashes on one page |
| Renderer.MaskedTile | SRC/GAME2.C:289-300 | a foreground masked tile is deferred as a (value, destination) pair; any other masked tile is blitted at once |
| Renderer.MaskedPart | SRC/GAME2.C:418-480 | the masked part of a cell, if any, is a masked tile value from 8000 up |
| Renderer.CellPaintsOnce | SRC/GAME2.C:410-503 | each cell gets exactly one solid blit, to its own destination and first; its masked part is then either deferred (foreground) or blitted behind the sprites |
| Renderer.SolidCellAnimation | SRC/GAME2.C:482-503 | a solid tile is drawn at its value plus the slow or fast animation step when animated, and unchanged otherwise |
| Renderer.JoinSeparated | SRC/GAME2.C:406-520 | concatenating rows keeps the separation of foreground and other masked tiles |
| Renderer.RowSeparatesForeground | SRC/GAME2.C:410-507 | a row's draws contain no foreground masked tile, and every deferred pair is a foreground tile |
| Renderer.RowsSeparateForeground | SRC/GAME2.C:406-520 | the whole viewport pass defers exactly the foreground masked tiles and draws all the others |
| Renderer.Replay | SRC/GAME2.C:532-536 | the deferred pairs are drawn in the order they were found |
| Renderer.AnimationIsFourFrameLoop | SRC/GAME2.C:328-341 | the fast animation step cycles through 0, 8, 16, 24 every frame and the slow one every other frame (on one display page) |
| Renderer.FrameTraceOrder | SRC/GAME2.C:406-538 | in a frame, masked tiles drawn before the sprite passes are never foreground, masked tiles drawn after them are always foreground, and no solid tile is drawn after a sprite pass |
| Renderer.UpdateAndDrawGame | SRC/GAME2.C:243-547 | every frame flips the display page and clears the flash flag; a flash frame only fills the viewport with the flash colour |
| Renderer.ForegroundDrawnOverSprites | SRC/GAME2.C:243-547 | in a drawn frame foreground masked tiles come after the sprites and all other tiles before them, so foreground tiles always cover sprites |
| ScrFade.FadeInStep | SRC/SCRFADE.C:71-89 | one fade-in step adds the target palette to every accumulator entry and submits the accumulator divided by 16 |
| ScrFade.FadeOutStep | SRC/SCRFADE.C:180-193 | one fade-out step takes the palette away from every accumulator entry, never going below zero, and submits the accumulator divided by 16 |
| ScrFade.SubmittedLevel | SRC/SCRFADE.C:84-88 | an accumulator holding k times the palette submits fade level k, i.e. k/16 of each entry |
| ScrFade.FadeInToPalette | SRC/SCRFADE.C:54-96 | the fade-in shows 15 frames, frame k at k+1 sixteenths of the palette, and leaves 15 times the palette in the accumulator |
| ScrFade.FadeOutStepArithmetic | SRC/SCRFADE.C:157-183 | starting from 16 times the palette, every subtraction stays non-negative and leaves one palette fewer |
| ScrFade.FadeOutFromPalette | SRC/SCRFADE.C:150-196 | the fade-out shows 16 frames, going from 15/16 of the palette down to black |
| ScrFade.FadeOutScreen | SRC/SCRFADE.C:198-272 | a fade-out of the current palette clears only the border outside the demo episode and the whole screen in it, clears the HUD message and restores the in-game palette |
| ScrFade.FadeLevelMonotone | SRC/SCRFADE.C:54-96 | fading in only ever brightens each colour component |
| ScrFade.FadeEnds | SRC/SCRFADE.C:54-96 | a fade starts at black and ends at 15/16 of the palette, which stays within the 6-bit DAC range for values up to 68 |
| ScrFade.BuiltInPalettesInRange | SRC/UNIT1.C:92-105 | both built-in palettes fade in to values within the 6-bit DAC range |
| ScrFade.Duke3dTeaserFadeIn | SRC/SCRFADE.C:104-141 | step 0 resets the accumulator before adding the teaser palette; every later step adds it on, in 16-bit arithmetic |
| ScrFade.TeaserStepsAccumulate | SRC/SCRFADE.C:104-141 | after steps 0 to n-1 the accumulator holds n times the teaser palette, whatever it held before |
| ScrFade.TeaserFadeMatchesFadeIn | SRC/SCRFADE.C:104-141 | after n teaser steps the hardware shows exactly the level a full fade-in shows after n steps |
| ScriptTokens.FirstOf | SRC/SCRIPT1.C:62-66 | the index of the first stop character at or after a position |
| ScriptTokens.FindNextToken | SRC/SCRIPT1.C:62-67 | the distance is one past the first space or line feed, so adding it lands just behind that separator |
| ScriptTokens.MatchBackwards | SRC/SCRIPT1.C:80-104 | the backward scan stops at the nearest separator at or below the start that is followed by the token |
| ScriptTokens.FindTokenBackwards | SRC/SCRIPT1.C:80-104 | the returned distance reaches back to a separator followed by the token, and no separator in between is followed by it |
| ScriptTokens.MatchForwards | SRC/SCRIPT1.C:116-148 | the forward scan stops at the first separator followed by the token and counts the page markers it passes |
| ScriptTokens.FindTokenForwards | SRC/SCRIPT1.C:116-148 | the distance reaches the first separator followed by the token, and the page index grows by the number of APAGE markers passed, in 8-bit arithmetic |
| ScriptTokens.TerminateAtFirst | SRC/SCRIPT1.C:162-211 | the first stop character at or after the position becomes a NUL, nothing else changes, and the replaced character is reported |
| ScriptTokens.TerminateStrAfterToken | SRC/SCRIPT1.C:162-180 | the token is ended at the first space or carriage return, which is reported |
| ScriptTokens.TerminateStrAtEOL | SRC/SCRIPT1.C:193-211 | the line is ended at the first carriage return, which is reported |
| ScriptTokens.UnterminateStr | SRC/SCRIPT1.C:218-226 | the first NUL at or after the position is replaced by the given character and nothing else changes |
| ScriptTokens.TerminateRoundTrip | SRC/SCRIPT1.C:162-226 | unterminating with the reported character restores the text, when no NUL lies between the position and the stop |
| ScriptTokens.TerminateRoundTripNeedsNoNul | SRC/SCRIPT1.C:162-226 | with a NUL before the stop the round trip fails: the restored text differs from the original |
| ScriptCommands.QueryOrToggleOption | SRC/SCRIPT2.C:89-199 | each option reports the setting it controls after the optional toggle; unknown options report false and change nothing |
| ScriptCommands.DebugOptionsAreRadioButtons | SRC/SCRIPT2.C:102-121 | after toggling debug digit d, querying digit e is checked exactly when e is d |
| ScriptCommands.OptionsKeepSpeakerExclusive | SRC/SCRIPT2.C:123-189 | the PC speaker is never left enabled together with Sound Blaster or AdLib sounds, and a device that is not present stays disabled |
| ScriptCommands.QueryIsIdempotent | SRC/SCRIPT2.C:89-199 | a query settles the settings in one call: a second query changes nothing and, except for music, reports the same |
| ScriptCommands.MusicReportsPreClampValue | SRC/SCRIPT2.C:176-189 | toggling music on without an AdLib reports it enabled while leaving it disabled |
| ScriptCommands.ToggleCheckbox | SRC/UNIT1.C:313-317 | checkbox n toggles the option whose letter is at position 2n-1 of the checkbox data, and an index outside the data is an error |
| ScriptCommands.ToggleTwiceRestores | SRC/UNIT1.C:313-317 | toggling an option twice restores the settings, when the hardware allows the option |
| ScriptCommands.SetUpParameterRead | SRC/UNIT1.C:236-240 | the text moves to the next token, which is ended by a NUL, and the replaced character is reported |
| ScriptCommands.SetKeysRoundTrip | SRC/SCRIPT2.C:349-372 | the key codes read from a SETKEYS parameter are the scancodes it encodes, with '_' standing for SCANCODE_D |
| ScriptCommands.WaitKeyMatch | SRC/SCRIPT2.C:655-672 | a key press selects page j+1 for the first SETKEYS code j it equals, and nothing when it matches none |
| ScriptCommands.FindScriptByName | SRC/SCRIPT2.C:930-977 | hopping from token to token, the search stops at the first token start that begins with the name and returns the text after the name's token |
| ScriptCommands.WalkStopsAfterHop | SRC/SCRIPT2.C:973-976 | one hop skips no token start: the stops after it are the earlier stops other than the start |
| ScriptCommands.SetKeys | SRC/SCRIPT2.C:349-372 | one key code per parameter character, each the character's own code except '_', which stands for SCANCODE_D |
| Rle.DecompressRLE | SRC/LVLUTIL2.C:115-152 | a completed decompression has read exactly up to and including the 0 marker that ends it |
| Rle.DecompressRunStep | SRC/LVLUTIL2.C:130-140 | a positive marker n puts n copies of the following byte in front of what the rest of the source decodes to, and uses two source bytes |
| Rle.DecompressLiteralStep | SRC/LVLUTIL2.C:141-150 | a negative marker -n (other than -128) copies the n following bytes unchanged and uses n + 1 source bytes |
| Rle.CompleteRunStep | SRC/LVLUTIL2.C:130-140 | a completed decompression that starts with a run completes on the rest of the source, two bytes later |
| Rle.CompleteLiteralStep | SRC/LVLUTIL2.C:141-150 | a completed decompression that starts with a literal completes on the rest of the source, n + 1 bytes later, with n below 128 |
| Rle.DecompressAgreeing | SRC/LVLUTIL2.C:115-152 | any source that agrees on the bytes a completed decompression read decodes to the same output |
| Rle.DecompressReadsOnlyConsumed | SRC/LVLUTIL2.C:115-152 | the output depends only on the bytes up to the terminating 0 |
| Rle.DecompressStopsAtTerminator | SRC/LVLUTIL2.C:124-128 | whatever follows the terminating 0 is never read |
| Rle.DecompressBlock | SRC/LVLUTIL2.C:115-152 | decompressing one encoded run or literal block yields the bytes it stands for, in front of the rest |
| Rle.DecompressEncoded | SRC/LVLUTIL2.C:115-152 | any sequence of valid blocks, encoded and closed with a 0 marker, decompresses to the concatenation of what the blocks stand for, reading the whole encoding |
| Rle.CalcConstantData | SRC/LVLUTIL2.C:44-107 | data of n equal bytes is charged 2 bytes per run block of at most 127 repetitions |
| Rle.CalcRunFrom | SRC/LVLUTIL2.C:60-82 | inside the run loop, the remaining equal bytes are charged 2 bytes for every started block of 127 |
| Rle.CalcAlternatingData | SRC/LVLUTIL2.C:44-107 | data with no two equal neighbours is charged one byte per element plus one marker for every started block of 127 |
| Rle.CalcLiteralFrom | SRC/LVLUTIL2.C:84-107 | inside the literal loop, each remaining byte costs one and each new block of 127 one more |
| Rle.CalcSizeBounds | SRC/LVLUTIL2.C:44-107 | for any data, an estimate that stays inside the data is at least 2 and at most two bytes per element after the first |
| Rle.CalcFromBounds | SRC/LVLUTIL2.C:54-107 | each pass of the loops adds at most two per element it passes, and the last block adds two |
| Rle.CalcReadsPastEnd | SRC/LVLUTIL2.C:57-82 | a run that ends one byte before the data does makes the next block compare the last byte with the one after the data |
| Backdrop.InitBackdropOffsetTable | SRC/MAIN.C:82-115 | every entry of the 4000-entry table is written, with the offset 8·(row·40 + column) of the backdrop tile it stands for |
| Backdrop.FourCopies | SRC/MAIN.C:96-114 | the inner loop for one row writes exactly the four copies of each column: top-left, top-right, bottom-left and bottom-right |
| Backdrop.CopyEntry | SRC/MAIN.C:100-110 | each of the four copies holds the offset of the same backdrop tile |
| Backdrop.WrittenStep | SRC/MAIN.C:98-113 | one column step adds exactly its four table entries to those written so far |
| Backdrop.WrittenRow | SRC/MAIN.C:96-114 | finishing a row is the same as starting the next one |
| Backdrop.TableWrapsBackdrop | SRC/MAIN.C:82-115 | reading the table from any start in the first quadrant, row r and column c away, shows the backdrop tile wrapped around both edges |
| Backdrop.Earthquake | SRC/GAME2.C:75-102 | the earthquake touches only its own counters, and a new threshold is always below 50 |
| Backdrop.EarthquakeSoundIsAlwaysTheFirst | SRC/GAME2.C:77-93 | during a quake the only sound ever played is the first earthquake sound, since the choice of variant sits in the branch where the random value is 0; shakes are by 1 to 3; nothing happens outside the quake window |
| Backdrop.AutoScrollXStep | SRC/GAME2.C:107-126 | horizontal auto-scrolling advances the step modulo 160, moves to the next pre-shifted copy and starts the table at column step / 4 |
| Backdrop.AutoScrollXCycles | SRC/GAME2.C:107-126 | the pre-shifted copy changes every frame and comes back after four frames |
| Backdrop.NextCopy | SRC/GAME2.C:117-121 | the next copy is again one of the four pre-shifted copies, and a different one |
| Backdrop.AutoScrollYCycles | SRC/GAME2.C:131-160 | vertical auto-scrolling counts the step down through 49..0 and starts the table step / 2 rows down, on the copy chosen by the step's and camera's parities |
| Backdrop.ReactorSequence | SRC/GAME2.C:193-231 | the reactor sequence only moves forward and stops at 14; its message is shown exactly when the step is at 13, and the explosion sound only with the step advancing on the display page |
| Backdrop.UpdateBackdropStartsInFirstQuadrant | SRC/GAME2.C:60-232 | with one scroll mode the table start is in the first quadrant, so every viewport read stays inside the table; the parallax modes follow the camera at half speed |
| Backdrop.ScrollModesStartInFirstQuadrant | SRC/GAME2.C:107-231 | after the mode tests, the table start lies py rows and px columns in with py < 25 and px < 40 |
| Backdrop.ScrollModesSingle | SRC/GAME2.C:107-231 | with at most one mode set, the mode tests apply just that mode |
| Tiles.AttributeFlagValues | SRC/GAMEDEFS.H:212-225 | the attribute bit numbers give the flag values of the TileAttributes enumeration |
| Tiles.SolidFlagsAreLowNibble | SRC/GAMEDEFS.H:213-216 | the low-nibble test is set exactly when one of the four solid-edge flags is |
| Tiles.Classify | SRC/GAME2.C:410-503 | a cell is backdrop, solid, masked or composite exactly according to its value's range and bit 15 |
| Tiles.CompositeRoundTrip | SRC/GAME2.C:420-460 | decoding a composite cell yields the solid background tile and the masked foreground tile it was encoded from, with the foreground's high bits taken from the extra data |
| Tiles.ExtraBitsUnpack | SRC/GAME2.C:453-458 | the extra bits of cell c come from byte c / 4 at bit position 2·(c % 4) |
| Tiles.AnimationStepsCompose | SRC/GAMEDEFS.H:309-316 | m animation steps followed by n steps are m + n steps |
| Tiles.AnimationStepsAdvance | SRC/GAMEDEFS.H:309-316 | below the end of the loop each step adds one frame |
| Tiles.AnimationLoopPeriod | SRC/GAMEDEFS.H:309-316 | within its range an animation loop stays in range and comes back after to - from + 1 steps |
| Words.WordBytesRoundTrip | SRC/LVLHEAD.H:34-36 | a 16-bit word and its low and high bytes determine each other |
| BasicSnd.StopPc | SRC/BASICSND.C:142-154 | stopping silences the speaker and leaves nothing playing, with priority and last sample cleared and the lookup settings kept |
| BasicSnd.InitPcSpeaker | SRC/BASICSND.C:158-180 | initialisation stops the speaker and records the lookup mode; in lookup mode the table built by repeated addition holds i times the factor (16-bit) at entry i, otherwise it is left alone |
| BasicSnd.PcService | SRC/BASICSND.C:194-268 | a service call with no sound does nothing, and no call changes the lookup settings |
| BasicSnd.PlayPc | SRC/BASICSND.C:276-308 | a sound of lower priority than the playing one is ignored; otherwise the speaker is stopped and the sound starts after its header, with one sample per byte or per word of the remaining length |
| BasicSnd.PcServicesCons | SRC/BASICSND.C:200-266 | a call with more than one sample left plays the next sample, moving the speaker only when it differs from the last one, and advances by one sample |
| BasicSnd.PcServicesLast | SRC/BASICSND.C:263-266 | the call that plays the last sample also stops the speaker |
| BasicSnd.PcServicesState | SRC/BASICSND.C:194-268 | after k of the n remaining calls the player is k samples further in, and after the n-th it has stopped |
| BasicSnd.PcServicesPlay | SRC/BASICSND.C:194-268 | k service calls output the speaker changes of the next k samples, followed by the speaker turned off when the sound ends |
| BasicSnd.PcSoundPlaysThrough | SRC/BASICSND.C:194-308 | a sound that starts plays each of its samples in order through the speaker, then turns it off and stops |
| BasicSnd.EmptyPcSoundRunsOn | SRC/BASICSND.C:263-298 | a sound with only a header starts with zero samples left, so the first service call counts down to -1 and the player keeps reading past the sound |
| BasicSnd.InstrumentOwnsChannelZero | SRC/BASICSND.C:489-503 | the instrument set-up writes each register once, all of them of AdLib channel 0 |
| BasicSnd.InstrumentSetUp | SRC/BASICSND.C:489-503 | the instrument set-up writes each modulator and carrier field of the sound's instrument to its register, and clears feedback and connection |
| BasicSnd.BlockValue | SRC/BASICSND.C:475 | the block register value holds the sound's 3-bit block in bits 2 to 4 with the key-on bit 5 set |
| BasicSnd.StopAl | SRC/BASICSND.C:383-398 | stopping keys channel 0 off and leaves nothing playing, with priority cleared |
| BasicSnd.AlService | SRC/BASICSND.C:408-437 | a service call with no sound does nothing, and the block value is never changed |
| BasicSnd.PlayAl | SRC/BASICSND.C:446-507 | a sound of lower priority is ignored; otherwise channel 0 is keyed off, the instrument set up, and the samples start after the 19-byte header with the sound's block value |
| BasicSnd.AlStepContinues | SRC/BASICSND.C:412-436 | a call with more than one sample left writes the sample's note and moves on by one byte |
| BasicSnd.AlStepStops | SRC/BASICSND.C:432-435 | the call that plays the last sample also keys the channel off and stops |
| BasicSnd.AlServicesPlay | SRC/BASICSND.C:408-437 | k service calls write the notes of the next k samples, followed by a key-off when the sound ends |
| BasicSnd.AlSoundPlaysThrough | SRC/BASICSND.C:408-507 | a sound that starts plays each of its sample bytes as a note, a 0 byte as a key-off, then keys off and stops |
| DigiSnd.DigitValue | SRC/DIGISND/SRC/DIGISND.C:1534-1549 | exactly 0-9, a-f and A-F are digits, each worth less than 16 |
| DigiSnd.DigitRunEnd | SRC/DIGISND/SRC/DIGISND.C:1530-1555 | the number reader stops at the first character that is not a digit, or at the end |
| DigiSnd.Strtol | SRC/DIGISND/SRC/DIGISND.C:1524-1563 | the reader returns the value of the whole digit run in the radix, accumulating even digits that are not below the radix, wrapped to the 32-bit `long` it accumulates in, and the position after the run |
| Words.WrapLongMulAdd | SRC/DIGISND/SRC/DIGISND.C:1551-1552 | wrapping the `long` after every multiply-and-add step gives the wrap of the exact total |
| DigiSnd.WrappedAddressSelectsPort | SRC/DIGISND/SRC/DIGISND.C:1597-1609 | the address "A100000220" wraps to 0x220 in the `long` and selects port index 2 |
| DigiSnd.RunExtends | SRC/DIGISND/SRC/DIGISND.C:1551-1554 | each digit read multiplies the value so far by the radix and adds the digit |
| DigiSnd.ToDigitsRoundTrip | SRC/DIGISND/SRC/DIGISND.C:1524-1563 | reading back the digits of any number in radix 2 to 16 gives the number |
| DigiSnd.DigitRunEndAfter | SRC/DIGISND/SRC/DIGISND.C:1530-1555 | a digit string followed by a blank or the end is read in full and no further |
| DigiSnd.ToUpper | SRC/DIGISND/SRC/DIGISND.C:1590-1593 | lower-case setting letters are upper-cased and every other character is left alone |
| DigiSnd.SkipBlanks | SRC/DIGISND/SRC/DIGISND.C:1581-1584 | the blank skip passes exactly the spaces and tabs in front of the next setting |
| DigiSnd.SkipSetting | SRC/DIGISND/SRC/DIGISND.C:1640-1646 | an unknown setting is skipped up to the next blank or the end |
| DigiSnd.ApplySetting | SRC/DIGISND/SRC/DIGISND.C:1597-1638 | a value is accepted exactly when it is a supported address (0x210 to 0x260 in steps of 16), interrupt (2, 3, 5, 7 or 10, with its vector) or DMA channel (0, 1 or 3); an accepted setting changes only its own field, and any other value is an error |
| DigiSnd.ParseStep | SRC/DIGISND/SRC/DIGISND.C:1578-1648 | each pass of the parser either moves forward or ends, and ending at the end of the string keeps the settings read so far |
| DigiSnd.ParsedPortIndex | SRC/DIGISND/SRC/DIGISND.C:1572-1651 | a successful parse reports either the port index it started with or one of 1 to 6 |
| DigiSnd.NoAddressKeepsPort | SRC/DIGISND/SRC/DIGISND.C:1572-1651 | without an 'A' setting the parse reports no port (-1 from the start) |
| DigiSnd.ParseCaseInsensitive | SRC/DIGISND/SRC/DIGISND.C:1586-1593 | upper-casing the whole string does not change the result of the parse |
| DigiSnd.SettingRead | SRC/DIGISND/SRC/DIGISND.C:1581-1638 | a setting letter followed by a digit string and a blank is read with the digit string's value, in hexadecimal for 'A' and decimal otherwise |
| DigiSnd.LayoutParses | SRC/DIGISND/SRC/DIGISND.C:1572-1651 | a BLASTER string of the form A<addr> I<irq> D<dma> with supported values parses to exactly those settings and the interrupt's vector |
| DigiSnd.FormatBlasterParses | SRC/DIGISND/SRC/DIGISND.C:1572-1651 | the string a setup program writes for supported settings parses back to the same settings |
| DigiSnd.TimeValueMatchesRate | SRC/DIGISND/SRC/DIGISND.C:702-706 | for rates from 3907 Hz to 1 MHz the time constant leaves a divisor d from 1 to 255 with d·rate ≤ 1000000 < (d+1)·rate, i.e. the largest period not faster than the rate |
| DigiSnd.DmaAddress | SRC/DIGISND/SRC/DIGISND.C:499-516 | the page and 16-bit offset given to the DMA controller name the same physical address as the segment and offset |
| DigiSnd.SubmitSampleChunk | SRC/DIGISND/SRC/DIGISND.C:462-629 | a chunk starts at the sample's physical address and transfers all of it, or as much as fits before the next 64 KiB boundary |
| DigiSnd.Submit | SRC/DIGISND/SRC/DIGISND.C:499-533 | a submitted chunk never crosses a 64 KiB boundary, transfers at most the length asked for and at least one byte when there is any |
| DigiSnd.TransfersCoverSample | SRC/DIGISND/SRC/DIGISND.C:652-662 | the chunks submitted one after the other by PlaySample_Private and SBService start at the sample, follow each other without gap, stay within their pages and add up to the sample's length |
| DigiSnd.TransfersTotal | SRC/DIGISND/SRC/DIGISND.C:737-751 | the chunk lengths add up to the sample length |
| DigiSnd.TransfersWithinPage | SRC/DIGISND/SRC/DIGISND.C:525-528 | no chunk crosses a 64 KiB boundary |
| DigiSnd.TransfersContiguous | SRC/DIGISND/SRC/DIGISND.C:652-662 | each chunk starts where the one before it ended |
| DigiSnd.RepeatStart | SRC/DIGISND/SRC/DIGISND.C:953-979 | a repeat start pushes the body position and count when the stack has room, and always counts one more level of nesting |
| DigiSnd.RepeatEnd | SRC/DIGISND/SRC/DIGISND.C:981-1023 | a repeat end with count left jumps back to the body and uses up one repetition; otherwise it pops one level and moves on |
| DigiSnd.VocStep | SRC/DIGISND/SRC/DIGISND.C:878-1039 | each pass over a section keeps the walker's stack well formed |
| DigiSnd.TypedSectionPlays | SRC/DIGISND/SRC/DIGISND.C:914-928 | a typed sound section plays its data after the two header bytes with its own time constant and codec, for its length minus 2 |
| DigiSnd.RepeatEnter | SRC/DIGISND/SRC/DIGISND.C:953-979 | entering a repeat block plays its body the first time with the count stored |
| DigiSnd.RepeatAgain | SRC/DIGISND/SRC/DIGISND.C:993-1016 | while repetitions are left, each call plays the body again with one repetition fewer |
| DigiSnd.RepeatLeave | SRC/DIGISND/SRC/DIGISND.C:993-1023 | with no repetitions left the repeat end pops the level and moves past the block |
| DigiSnd.RepeatPasses | SRC/DIGISND/SRC/DIGISND.C:993-1016 | c further calls play the body c more times |
| DigiSnd.RepeatPlaysCountPlusOne | SRC/DIGISND/SRC/DIGISND.C:953-1023 | a repeat block with count c plays its body c + 1 times |
| DigiSnd.DeepRepeatsPlayOnce | SRC/DIGISND/SRC/DIGISND.C:960-1017 | beyond 8 nested levels a repeat block still counts its depth but does not store a count, so it plays once |
| DigiSnd.VocEndings | SRC/DIGISND/SRC/DIGISND.C:885-988 | a terminator section stops the sound and a repeat end at depth 0 halts the walker |
| DigiSnd.Candidates | SRC/DIGISND/SRC/DIGISND.C:1232-1273 | the ports the probe may try: port 2 for index 0, the given index otherwise, and 2, 4, 1, 3, 5, 6 when none is configured |
| DigiSnd.DetectSoundBlaster | SRC/DIGISND/SRC/DIGISND.C:1226-1274 | the ports are probed in order until the first that works, and the card is found exactly when the last port probed works |
| DigiSnd.SbInit | SRC/DIGISND/SRC/DIGISND.C:1667-1711 | a BLASTER parse error is returned before any probing; without a BLASTER string the card is found exactly when some port works; a Sound Blaster implies an AdLib |
| Music.SubFour | SRC/MUSIC.C:184 | taking 4 from the 16-bit signed count wraps around like the source's `int` |
| Music.PlayDueEvents | SRC/MUSIC.C:171-185 | the event loop consumes four bytes per event played and stops early only when no event is due any more; with none due it plays nothing |
| Music.DueEventsWritten | SRC/MUSIC.C:176-182 | the events played write, in order, the register in each event's low byte with the value in its high byte |
| Music.AfterEvents | SRC/MUSIC.C:187-219 | the logo flag is set exactly when at most 40 bytes are left; a used-up song rewinds to its start with ticks and next-event time reset, otherwise ticks advance by one |
| Music.MusicService | SRC/MUSIC.C:159-220 | with no song playing the service does nothing; it never starts or stops playback or moves the song's start and size |
| Music.EventLoopEnds | SRC/MUSIC.C:171-185 | with a count that is a multiple of 4 the loop runs out of due events within the budget |
| Music.ServicePlaysAllDue | SRC/MUSIC.C:159-220 | a service call plays every event that is due, then updates ticks, logo flag and rewind |
| Music.DueEventsHaveNoDelay | SRC/MUSIC.C:171-185 | every event played in one call but the last has a delay of zero or less, since the next one was due at the same tick |
| Music.DueEventsSchedule | SRC/MUSIC.C:179 | after the loop the next event time is the current tick plus the last played event's delay |
| Music.EventsKeepResidue | SRC/MUSIC.C:184 | the loop keeps the count of bytes left congruent modulo 4 |
| Music.ServiceKeepsCountResidue | SRC/MUSIC.C:159-220 | a service call, including a rewind, keeps the count congruent to the song size modulo 4 |
| Music.OddSizedSongNeverRewinds | SRC/MUSIC.C:171-219 | a song whose size is not a multiple of 4 never reaches zero bytes left, so it never rewinds and ticks keep counting |
| Music.ResetChannelsAsWritten | SRC/MUSIC.C:361-387 | the reset as written makes eleven writes |
| Music.ResetWritesPastLastChannel | SRC/MUSIC.C:383-386 | the reset as written writes registers 0xB9 and 0xBA, which belong to no AdLib channel |
| Music.ResetSilencesMusicChannels | SRC/MUSIC.C:361-387 | the intended reset keys off each of the music channels 1 to 8, leaves channel 0 to the sound effects and writes only rhythm mode and key-on registers |
| Music.StopMusicInternal | SRC/MUSIC.C:391-395 | stopping makes the intended nine-write channel reset (see Findings) and pauses the song without changing anything else |
| Music.StartMusicPlayback | SRC/MUSIC.C:434-443 | after the intended channel reset, playback starts at the buffer with the whole file left, ticks and next-event time at zero |
| Music.SongLoops | SRC/MUSIC.C:214-219 | a service call that plays out the song leaves the same state as starting the song afresh, with the logo flag set |
| Music.PlayMusic | SRC/MUSIC.C:457-479 | without an AdLib nothing happens; otherwise the file size is recorded and the song starts, with the intended channel reset, except on boss levels (level 7 and up) |
| Music.StopMusic | SRC/MUSIC.C:483-491 | without an AdLib nothing happens; otherwise the music stops and its channels are silenced by the intended reset |
| Music.ResetChannels | SRC/MUSIC.C:361-387 | the intended reset makes nine writes: rhythm mode off and the eight music channels keyed off |
| Music.EventsNeverExhaustOddCount | SRC/MUSIC.C:171-185 | with a count that is not a multiple of 4 the loop never brings the count to zero |
| Sound.SbRoute | SRC/SOUND.C:233-271 | the digitised part falls through to the AdLib and PC speaker part exactly for an effect with a digitised version and an id of at most 40, and then the fallback priority is the one kept from a still playing AdLib sound |
| Sound.BasicRoute | SRC/SOUND.C:284-319 | the AdLib and PC speaker part never changes the fallback priority and asks for at most one device |
| Sound.PlaySound | SRC/SOUND.C:223-320 | with sound disabled nothing changes and nothing plays; at most two devices are asked for, always with the id passed in |
| Sound.PlaySoundDevices | SRC/SOUND.C:223-320 | the Sound Blaster, the AdLib and the PC speaker are each asked to play exactly when that device's rules (digitised version, intro id, priority held by a sound still playing) say so, the digitised request coming first |
| Sound.PlaySoundExclusions | SRC/SOUND.C:248-319 | an AdLib-only effect is never sent to the Sound Blaster, AdLib and PC speaker never both play, and the PC speaker plays only when AdLib effects are not chosen |
| Sound.AdLibOnlyFallsBack | SRC/SOUND.C:248-261 | on the digitised path an AdLib-only effect plays on the AdLib exactly when its priority reaches the fallback priority, which it then takes over |
| Sound.IntroSoundsIgnorePriority | SRC/SOUND.C:267-272 | on the digitised path an id above 40 plays digitised only, whatever the priorities |
| Sound.DigitisedAlsoOnAdLib | SRC/SOUND.C:274-296 | a digitised effect that wins its priority also plays on a present, chosen AdLib in the same call |
| Sound.PcSpeakerOnlyIgnoresPriority | SRC/SOUND.C:284-319 | with only the PC speaker chosen and the AdLib silent the effect always plays, because the priority was just reset to zero |
| Sound.PlayBasicSound | SRC/SOUND.C:169-207 | the AdLib sound is always stopped first and the speaker state stays well formed |
| Sound.AdjustCancels | SRC/SOUND.C:189-206 | the header size added to the size before the call is taken off again by the player, so the player sees the size stored in the package |
| Sound.BasicAdLibPlays | SRC/SOUND.C:175-200 | an AdLib effect starts after the size dword at its package offset, with the stored size, exactly when its priority is not negative; the speaker is untouched |
| Sound.BasicPcPlays | SRC/SOUND.C:175-206 | a PC speaker effect stops the AdLib and starts after its header only when its priority reaches the playing sound's |
| Sound.PlaySoundOn | SRC/SOUND.C:223-320 | carrying the requests out keeps PlaySound's priorities and passes on only its Sound Blaster requests, any output coming from a basic request |
| Sound.StopAllSound | SRC/SOUND.C:324-329 | afterwards neither the AdLib nor the PC speaker plays and both are silenced |
| Sound.LoadStepExtends | SRC/SOUND.C:112-121 | one turn of the loading loop keeps the loads exactly the files of the ids so far that have a digitised version |
| Sound.LoadSoundEffects | SRC/SOUND.C:75-122 | the speaker is set up with lookup factor 60 and every id up to the last digitised one with a digitised version is loaded, in increasing order, from its SB_ file, and no other |
| Sound.LoadIntroSoundEffects | SRC/SOUND.C:130-158 | without a Sound Blaster nothing is loaded; with one the seven intro ids 42 to 48 are loaded from INTRO files numbered 39 less |
| Sound.IntroSoundsAreDistinct | SRC/SOUND.C:140-157 | the intro loads are distinct ids above 40 with distinct files, the first being INTRO3.MNI |
| Ui1.SmallFontTile | SRC/UI1.C:291-314 | every character of the small font lies in the 40-column sheet, in rows 21 to 23 |
| Ui1.SmallFontLayout | SRC/UI1.C:291-314 | the icon drawn for a font character is the offset of its tile, and distinct characters have distinct tiles: the four runs of the sheet do not overlap |
| Ui1.SmallFontIconAtTile | SRC/UI1.C:293-313 | the 16-bit offset arithmetic of each run lands exactly on the character's tile |
| Ui1.SmallFontIconsDistinct | SRC/UI1.C:291-314 | no two font characters are drawn from the same icon |
| Ui1.LeadingDigits | SRC/UI1.C:361 | the digits atoi reads are the longest run of digits at the start of the text |
| Ui1.SkipSpaces | SRC/UI1.C:361 | atoi starts reading at the first character that is not white space |
| Ui1.Atoi | SRC/UI1.C:361 | text that does not start with a sign or a digit after its white space reads as 0 |
| Ui1.AtoiSkipsSpace | SRC/UI1.C:361 | leading white space does not change the number read |
| Ui1.AtoiMinus | SRC/UI1.C:361 | a minus sign negates the number that follows |
| Ui1.AtoiPlus | SRC/UI1.C:361 | a plus sign leaves the number that follows as it is |
| Ui1.UnsignedAtoi | SRC/UI1.C:361 | without a sign or white space in front, the number read is the decimal value of the leading digits |
| Ui1.AtoiOfDigits | SRC/UI1.C:356-367 | a marker's digits read as their decimal value |
| Ui1.PlainTextIsSmall | SRC/UI1.C:354-395 | text without marker bytes draws each character before the terminator in the small font, at x plus its index |
| Ui1.ColorMarkerSwitchesFont | SRC/UI1.C:375-384 | after a colour marker every later character is drawn in the big font with the marker's low nibble as colour, one column per character |
| Ui1.PlainTextFromOffset | SRC/UI1.C:354-395 | from any index on, text without sprite markers draws one glyph per character up to the terminator, in the font the current colour selects |
| Ui1.SpriteMarkerFields | SRC/UI1.C:356-372 | a sprite marker followed by five digits draws the actor whose id the first three spell and the frame the last two spell, two columns right of the marker and one row down |
| Ui1.NegativeSpriteIdWraps | SRC/UI1.C:361-367 | a marker spelling "-01" draws actor 0xFFFF, since the negative atoi result is stored in a 16-bit word |
| Ui1.DigitsValue | SRC/UI1.C:356-367 | two or three digits read as tens and units, or hundreds, tens and units |
| Ui1.DigitKeyInitials | SRC/UI1.C:476-481 | the digit keys 1 to 0 are named by their digits |
| Ui1.TypedCharCase | SRC/UI1.C:476-494 | letters come out lowercase without shift and uppercase with it, digits the same either way, and in the high score dialog comma and dot as themselves |
| Ui1.RunTextKeepsNamesValid | SRC/UI1.C:471-506 | the text stays at most maxLen characters long and holds only letters, digits and spaces (plus comma and dot for high scores), whatever keys are pressed |
| Ui1.EntryLoop | SRC/UI1.C:442-507 | on the buffer, Enter confirms with the terminated text the key sequence builds, Escape cancels, and otherwise the text before the cursor is that text |
| Ui1.EditBuffer | SRC/UI1.C:461-506 | one key writes the buffer so that the text before the cursor is the edited text: backspace moves back only past a character, and a character is added only below maxLen |
| Ui1.RunTextFirst | SRC/UI1.C:450-460 | Enter ends the dialog keeping the text, Escape cancels it, any other key edits the text and the dialog goes on |
| Ui1.SaveGameNameEntry | SRC/UI1.C:429-509 | editing continues the existing name; the result is true exactly when Enter comes first with the edited name terminated in the buffer, false exactly when Escape comes first |
| Ui1.RunHighScoreNameEntry | SRC/UI1.C:524-591 | the name starts empty; a finished dialog leaves the typed name on Enter and the empty name on Escape, terminated |
| Ui1.NameEntryResults | SRC/UI1.C:436-458 | Enter straight away keeps an existing name, and any confirmed name is at most maxLen long |
| Ui2.IsKeyBindingInUse | SRC/UI2.C:41-79 | true exactly when one of the six bindings other than the one at `index` already holds the scancode |
| Ui2.RunRebindKeyDialog | SRC/UI2.C:87-140 | the prompts read every other key (the ones between are the error message's wait); the first prompt answered with a key not bound elsewhere stores that key in binding `index`, and if none is, nothing is stored |
| Ui2.RebindKeepsBindingsDistinct | SRC/UI2.C:96-139 | storing a key not in use elsewhere keeps the six bindings pairwise distinct and changes only binding `index` |
| Ui2.IsSaveSlotEmpty | SRC/UI2.C:227-230 | a slot is empty exactly when its name is the empty string |
| Ui2.SaveSlotLabels | SRC/UI2.C:144-160 | each slot is drawn on its own row, as "Empty" when empty and as its name otherwise, highlighted exactly when it is the selected one |
| Ui2.RunSaveGameNameEntry | SRC/UI2.C:169-183 | only the edited slot's name can change; it is true exactly when Enter confirms, with the edited name stored terminated, and false exactly when Escape cancels |
| Ui2.DecimalDigit | SRC/UI2.C:192-214 | the character k places from the right of ultoa's decimal form is the digit of weight 10^k |
| Ui2.DecimalLength | SRC/UI2.C:192-214 | a number below 10^k has at most k decimal digits |
| Ui2.DwordDigits | SRC/UI2.C:192-210 | a 32-bit number has at most ten digits, so the 12-character buffer holds it with its terminator |
| Ui2.BlueDigitIcon | SRC/UI2.C:219 | digit d's icon is the 2x2 tile at column 2d of row 7 |
| Ui2.DrawBigNumberBlue | SRC/UI2.C:207-223 | one icon per decimal digit, most significant first, the digit of weight 10^k drawn at x - 2k from the icon of that digit |
| Ui2.DrawBigNumberGrey | SRC/UI2.C:189-200 | a blank at x - 2n - 2 and then the n digits from x - 2n on, so the last digit ends at x - 2 |
| Ui2.GreyPositions | SRC/UI2.C:196-199 | for any digit string of length n, the blank is at x - 2n - 2 and the digit k places from the right is at x - 2k - 2 |
| Unit1.KeyboardHandler | SRC/UNIT1.C:249-282 | the scancode read is always remembered as the last scancode |
| Unit1.KeyboardHandlerSpec | SRC/UNIT1.C:259-278 | for any scancode but the extended prefix, the key's flag becomes "pressed" exactly when bit 7 is clear and no other key's flag changes; the prefix changes no flag |
| Unit1.PressThenReleaseRestores | SRC/UNIT1.C:268-277 | pressing and then releasing a key that was up leaves the key state as it was |
| Unit1.Decimal | SRC/UNIT1.C:533 | ultoa gives at least one digit and only digits, and a single digit exactly for numbers below 10 |
| Unit1.DecimalRoundTrip | SRC/UNIT1.C:533 | reading the decimal form back gives the number, and it starts with '0' only for zero |
| Unit1.ByteHasAtMostThreeDigits | SRC/UNIT1.C:528-533 | a byte needs at most three digits, so the four-character number buffer suffices |
| Unit1.CopyUppercasedAt | SRC/UNIT1.C:530-539 | copying a string into the filename buffer at an offset writes it uppercased and terminated there, leaving what comes before and after the copy unchanged |
| Unit1.UppercasedNoNul | SRC/COREUTIL.C:185-195 | uppercasing never produces the terminator |
| Unit1.CStrSplice | SRC/UNIT1.C:530-539 | a string followed directly by a terminated string reads as their concatenation |
| Unit1.MakeFilename | SRC/UNIT1.C:525-542 | the filename is the uppercased prefix, then the number in decimal, then the uppercased postfix, terminated |
| Video1.FrameDelayTicks | SRC/VIDEO1.C:148-162 | a negative delay d from -117 to -1 waits -d seconds of timer ticks, and below that the 16-bit product keeps only its residue, up to sign; a positive one waits the largest whole number of ticks that fits in 1/d of a second |
| Video1.Abs16 | SRC/VIDEO1.C:156 | the absolute value of a 16-bit `int`, where -32768 stays -32768 |
| Video1.FrameDelayWraps | SRC/VIDEO1.C:156 | a delay of -118 seconds becomes 32496 ticks instead of 33040 |
| Video1.DelaysStayKnown | SRC/VIDEO1.C:50-163 | once one of the delays the switch sets is in place, every later frame keeps one, so the division never divides by zero; the logo video always waits 35 ticks a frame and the NEO LA video 70 |
| Video1.FirstFrameSetsDelay | SRC/VIDEO1.C:52-146 | every video with a delay table sets a known delay on frame 0, whatever was left over from before |
| Video1.KnownDelayTicks | SRC/VIDEO1.C:148-162 | the ticks for each delay the switch sets: 35, 70, 14, 23, 46, 56 and 16 for the fractions, 280 per second for the others |
| Video1.Range3Frame7FallsThrough | SRC/VIDEO1.C:98-104 | frame 7 of the third range video plays the reel-in sound and falls through to frame 17's delay, while frame 17 plays nothing |
| Video1.UnlistedFramesKeepDelay | SRC/VIDEO1.C:92-145 | a frame of the third range video without a delay case keeps the running delay |
| Video2.ByteWritesAt | SRC/VIDEO2.C:975-1034 | after storing bytes from an offset, a pixel holds the byte whose distance from the start (wrapping within the 64 KiB segment) it is, and pixels beyond the bytes keep their value |
| Video2.PrimitivesWriteExactly | SRC/VIDEO2.C:975-1034 | screen_repeat_one stores its colour `count` times and screen_copy_seg its pixels, both from y * width + x on in unsigned 16-bit arithmetic, and no other pixel changes |
| Video2.CountDown | SRC/VIDEO2.C:1030 | `while (--n >= 0)` on a 16-bit n runs n times for n not negative and not at all for negative n, except -32768, which wraps to 32767 |
| Video2.ReadRunPacket | SRC/VIDEO2.C:479-489 | a packet read consumes at least one byte within the data and is drawn at the current position |
| Video2.ReadEncodedPacket | SRC/VIDEO2.C:479-489 | a run packet's encoding reads back as a repeat of its colour and a literal packet's as a copy of its pixels, consuming its encoding and advancing by its width |
| Video2.RunRowRoundTrip | SRC/VIDEO2.C:473-490 | a row of packets as encoded decodes to the packets' operations, one after the other across the row, and stops right after them |
| Video2.RunRowsRoundTrip | SRC/VIDEO2.C:468-493 | encoded rows, each behind its count byte, decode to their operations, one screen row down per row |
| Video2.ByteRunRoundTrip | SRC/VIDEO2.C:459-494 | a BYTE_RUN chunk holding as many encoded rows as the header's height, each as wide as the header, decodes to exactly those rows' operations |
| Video2.ByteRunPaintsImage | SRC/VIDEO2.C:459-494 | such a chunk stores exactly the rows' pixels, in order, as one block from yoff * width + xoff on |
| Video2.PacketOpsPaint | SRC/VIDEO2.C:477-490 | a row's operations store the row's pixels consecutively from its start |
| Video2.RowsOpsPaint | SRC/VIDEO2.C:468-493 | full-width rows' operations store all rows' pixels consecutively from the first row's start |
| Video2.Component | SRC/VIDEO2.C:930-967 | a 256-level component is sent as its top six bits, a 64-level one unchanged |
| Video2.PutColors | SRC/VIDEO2.C:930-967 | one palette write per colour |
| Video2.PutColorsNth | SRC/VIDEO2.C:930-967 | the i-th write sets palette entry start + i (as the port's byte) to the i-th colour's three components |
| Video2.PutColorsReadsColors | SRC/VIDEO2.C:930-967 | colours placed in the data are the ones written to the palette, from entry start on |
| Video2.ColorOpsRoundTrip | SRC/VIDEO2.C:378-391 | packets as encoded decode to their palette writes, each packet skipping its count of entries before setting its colours |
| Video2.ColorPacketFromBytes | SRC/VIDEO2.C:380-385 | a packet's skip and count bytes read back as its skip and its number of colours, a count byte of 0 meaning 256 |
| Video2.ColorChunkHeader | SRC/VIDEO2.C:375-376 | the first word of an encoded colour chunk is its number of packets |
| Video2.ColorRoundTrip | SRC/VIDEO2.C:366-392 | a COLOR_256 or COLOR_64 chunk as encoded sets exactly its packets' colours, from palette entry 0 |
| Video2.ShiftedColorsSixBit | SRC/VIDEO2.C:953-967 | whatever the bytes of a COLOR_256 chunk, every component sent fits the DAC's six bits |
| Video2.LiteralSucceeds | SRC/VIDEO2.C:654-667 | the literal rows stay within the data exactly when there are no rows or the data holds rows times width bytes |
| Video2.LiteralRowNth | SRC/VIDEO2.C:662-666 | row i copies the i-th width bytes of the chunk to screen row y + i |
| Video2.LiteralRowsPaint | SRC/VIDEO2.C:654-667 | rows of the screen width store the chunk's bytes consecutively from the first row's start |
| Video2.LiteralCopiesRows | SRC/VIDEO2.C:654-667 | decode_literal copies height rows of width bytes, the i-th w bytes of the chunk to screen row yoff + i |
| Video2.ReadLong | SRC/VIDEO2.C:748-749 | a chunk size is read as a signed 32-bit value |
| Video2.LongRoundTrip | SRC/VIDEO2.C:748-749 | a non-negative size stored little-endian reads back as itself |
| Video2.ChunkAtFromBytes | SRC/VIDEO2.C:748-751 | an encoded chunk's header reads back as its size, header included, and its type, and the next chunk follows it |
| Video2.ChunkWalkFindsChunks | SRC/VIDEO2.C:746-749 | stepping by each chunk's size finds every encoded chunk's type and body in turn |
| Video2.FrameRoundTrip | SRC/VIDEO2.C:740-789 | a frame of encoded chunks runs each chunk's decoder, in order, on that chunk's body |
| Video2.IgnoresUnknownChunks | SRC/VIDEO2.C:751-786 | a chunk is skipped exactly when its type is not COLOR_256, COLOR_64, DELTA_FLI, BYTE_RUN or LITERAL |
| Video2.TruncDiv | SRC/VIDEO2.C:706 | C's division by a positive divisor truncates toward zero |
| Video2.FlicOpen | SRC/VIDEO2.C:674-722 | only the FLI type opens, with the first frame right after the 128-byte header and only the speed also changed; any other type fails with the bad-flic error |
| Video2.SpeedInMilliseconds | SRC/VIDEO2.C:706 | while speed * 1000 fits a `Long`, the speed becomes the header's 70ths of a second in whole milliseconds, rounded down |
| Video2.SpeedOverflows | SRC/VIDEO2.C:706 | beyond that the product wraps: a header speed of 2147484 becomes a negative number of milliseconds |
| Video2.FirstReport | SRC/VIDEO2.C:881-887 | the first frame is reported as frame 0 |
| Video2.ReportedStep | SRC/VIDEO2.C:899-913 | each pass of the inner loop reports the next frame number modulo the frame count, the ring frame as 0 |
| Video2.PlaybackReports | SRC/VIDEO2.C:863-914 | a playback reports frame 0 once for no repetitions, and otherwise repetitions times frames frames, numbered modulo the frame count |
| Video2.PlayLoop | SRC/VIDEO2.C:863-914 | the frames shown and the numbers passed to OnNewVideoFrame: 0 first, then frame k shown as (k - 1) mod frames + 1 and reported as k mod frames, repetitions times frames reports in all, the last repetition skipping the ring frame; a frame count of 0 runs 65536 frames |

## Left out

Contracts narrower than the C code (each line starts with the member):

- ScriptTokens.FindNextToken requires a separator after `pos`. Without one, SCRIPT1.C scans past the end of the buffer.
- ScriptTokens.FindTokenBackwards requires the token to occur at or before `pos`. Without one, the C loop walks below the buffer.
- ScriptTokens.FindTokenForwards requires the token to occur after `pos`. Without one, the C loop runs off the end.
- ScriptTokens.TerminateStrAfterToken requires a space or '\r' after `pos`. The C loop has no bound.
- ScriptTokens.TerminateStrAtEOL requires a '\r' after `pos`. The C loop has no bound.
- ScriptTokens.UnterminateStr requires a NUL after `pos`. The C loop has no bound.
- CoreUtil.StringStartsWithSpec excludes two empty strings. On that input the C loop reads past both terminators.
- Unit1.MakeFilename requires the name to fit the 20-byte buffer. The C code copies without a check.
- MapEdit.MoveSection requires `right < 0xFFFF` and `bottom + distance < 0xFFFF`. Outside that range the C code's word loop counters wrap and never end. The rectangle must also fit the temporary tile buffer, which the C code does not check.
- MapEdit.DestroySectionRecordsEveryTile requires `right < 0xFFFF` and `bottom < 0xFFFF`, for the same word-counter reason.
- MapEdit.DestroySectionRecordCount requires `right < 0xFFFF` and `bottom < 0xFFFF`, for the same word-counter reason.
- MapEdit.DestroySectionFullRectangle requires `right < 0xFFFF` and `bottom < 0xFFFF`, for the same word-counter reason.
- MapEdit.DestroySection keeps the debris records in an unbounded sequence. The C buffer holds 700 records, and a larger section writes past it.
- MapEdit.DestroySection does not return the PlaySound(SND_BIG_EXPLOSION) request that GAME2.C:867 makes first; the sound call is a side effect outside the tile and debris state modelled here.
- MapEdit.UpdateTileDebris is the intended debris update, not the code as written. See Findings.
- LevelStart.Descriptions requires the actor list length in bytes to be a multiple of 6. For other lengths, the C loop reads a last record that runs past the list.
- Draw3.DrawBigTextChar excludes characters that have no sprite-font frame. For those, DRAW3.C draws an uninitialised frame index.
- Video2.ReadRunPacket returns None for a size byte of -128. In C, that byte negates to itself, steps the data pointer back 128 bytes and moves `x` left.
- Ui1.ColorMarkerSwitchesFont assumes characters are unsigned bytes, as a compiler with unsigned `char` treats the `== 0xEF` and `>= 0xF0` tests.
- Ui1.SpriteMarkerFields assumes unsigned characters, for the same reason.
- Video1.FrameDelayTicks requires a non-zero delay. A delay of 0 would divide by zero in C; Video1.DelaysStayKnown shows that no video reaches it. Below -117 the result is given only up to sign modulo 2^16; Video1.FrameDelayWraps computes one such case.
- ScriptCommands.FindScriptByName returns None when no hop position before the end matches. In that case the C loop runs forever or reads past the buffer.
- Music.PlayDueEvents is bounded by `fuel` events per call. Music.EventLoopEnds shows that a fuel above the remaining events is enough.
- Music.EventLoopEnds requires the data left to be a whole number of four-byte events.
- DigiSnd.PlayNextVocSection is bounded by `fuel` passes of the section walker. A VOC file that loops without end is cut off there.
- DigiSnd.Calls bounds each call of the walker by a fuel of 2.
- Backdrop.UpdateBackdropStartsInFirstQuadrant requires at most one scroll mode on a level. It also requires an automatic vertical scroll step of at most 50.
- Backdrop.ScrollModesStartInFirstQuadrant has the same two restrictions.
- DigiSnd.TimeValueMatchesRate is proved for rates 3907 to 1000000, the rates the DSP supports. ComputeTimeValue itself wraps to a byte for any non-zero rate; a rate of 0, a division by zero in C, is excluded.
- Inventory.AddInventoryItem returns None when all six slots are full. In that case the C code writes the out-of-bounds `plInventory[7]`.
- Music.StopMusicInternal emits Music.ResetChannels, the intended nine writes, not the eleven writes of ResetAdLibMusicChannels as written (0xB9 and 0xBA included). Music.ResetChannelsAsWritten models those; see Findings.
- Music.StartMusicPlayback begins with StopMusicInternal and so carries the intended reset, not the one as written.
- Music.PlayMusic starts the song through StartMusicPlayback and so carries the intended reset, not the one as written.
- Music.StopMusic stops through StopMusicInternal and so carries the intended reset, not the one as written.
- ScriptCommands.ToggleCheckbox returns None when the checkbox index points past the checkbox data. C reads whatever byte follows.
- Backdrop.InitBackdropOffsetTable leaves out the StopMusic and PlayMusic calls that MAIN.C:93-94 makes around the table set-up; they are Music.StopMusic and Music.PlayMusic and do not touch the table.
- Sound.LoadSoundEffects leaves out loading AUDIOHED and AUDIOT, which is file I/O; the sound data is a parameter.
- DigiSnd.SbInit leaves out the `sndInitialized` guard that makes a second call return at once; the model describes the first call.
- Tiles.AnimationStep computes on unbounded integers. The source's word frame counter would wrap only at 0xFFFF, above every animation range the game uses.
- Rle.CalcCompressedSize keeps the running sum as an unbounded integer. The source's 16-bit `int` sum would wrap past 32767; Rle.CalcSizeBounds shows this needs more than 16384 bytes of data.
- LevelUtil.ShiftPixelsHorizontallyRotates is proved only for the amounts 2 and 4 that the game uses. The transform itself is modelled for any amount below 8.

Behaviour not modelled:

- Overflow of the renderer's 500-word deferred-sprite list.
- The `ResetAdLibMusicChannels` call made by the music checkbox of QueryOrToggleOption.
- UpdateMenuCursor, GetTextInput and DrawCheckboxes. They only draw and busy-wait.
- Reading a frame from the file in flic_next_frame, and its FRAME_TYPE check.
- The DELTA_FLI chunk decoder, which is written in assembly. Only its body offset is recorded.
- Hardware ports, DMA, the interrupt controller, timing loops, file loading, memory allocation and the joystick.
- SB_PlayVoc is modelled as a request only. TryInitSB, DetectAndInitAdLib, the delays in WriteAdLibReg, SetDmaChannel, SB_Shutdown and SBService are hardware access.
- A PC speaker or AdLib sound that is empty keeps playing past its end. BasicSnd.EmptyPcSoundRunsOn states this as the code behaves; no corrected version is given.

## Findings

| source | as written | input that shows it | evidently intended | confidence | as-written member | corrected member |
|---|---|---|---|---|---|---|
| SRC/GAME2.C:918-941 | the debris step is capped at 13 (`debris[1] < 13`), but Y_MOVEMENT has 11 entries | any exploding section: every record's step reaches 11 during the explosion, and the next update reads Y_MOVEMENT[11] | cap the step at the last table entry (10) | not executed | MapEdit.StepDebrisAsWritten, MapEdit.DebrisOverrunsTable | MapEdit.StepDebris, MapEdit.StepDebrisStaysInTable |
| SRC/MUSIC.C:383-386 | the key-off loop runs `i < 10`, writing 0xB1 to 0xBA | any call of the music reset | `i < 8`, keying off channels 1 to 8 (0xB1 to 0xB8) | not executed | Music.ResetChannelsAsWritten, Music.ResetWritesPastLastChannel | Music.ResetChannels, Music.ResetSilencesMusicChannels |
