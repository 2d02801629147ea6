# Verification of the Diablo port's algorithmic cores

A Dafny model of the parts of the game that decide something: how a line and a sprite
are drawn, whether a cave is connected, which squares belong to one region, what an
inventory click does, who sits in a game, and what a saved file gives back. Each module
follows one source file. Code that updates state in place is modelled as classes, arrays
and loops and is proved against specifications; the specifications' own properties are
lemmas beside them.

| module | source | subject |
|---|---|---|
| Line | Source/engine.cpp | `DrawLine`, Wyvill's symmetric double-step line |
| Sprite, Cel, Cl2 | Source/engine.cpp | the CEL and CL2 decoders and the palette translation |
| Grid, Rooms, Smoothing, Cave | Source/drlg_l3.cpp | the cave generator: what rooms and passes make of a floor, and the connectivity test |
| Flood | Source/drlg_l1.cpp | the eight-way region fill (levels 2 and 4 have copies) |
| InvGrid, Inventory | Source/inv.cpp | the inventory grid, the hands, the belt and gold |
| Server | Server/main.cpp | the registry of four-slot games |
| Tiles | Source/gendung.cpp | the isometric index and the tile sort |
| Codec | Source/codec.cpp | the chained cipher of save files |
| Stream, Level | Source/loadsave.cpp | the save buffer, `SaveLevel` and `LoadLevel` |
| Lamps, LightTables, Lights, Vision | Source/lighting.cpp | light pictures and tables, light slots, the vision list |
| FileWindow | Source/jsfs.cpp | the windowed read cache |
| Slider | Source/gmenu.cpp | slider positions and values |
| CInt, Counting, Rng | | C types and division, counting, the random source as any outcome |

Random numbers are arbitrary values of the range asked for; where a pass may do less but
not more, it is also said what it does when they are always the highest. SHA-1 is any deterministic
state transformer; the table of an item's kind is part of the item. Where a comment in
the source and the code differ, the model follows the code.

What the proofs show about the code itself:

- `DrawLine` draws a correct line exactly when its ends differ. Where two pixels are equally
  near, a gentle line takes the one that its pen rises to; a steep one does so only in the
  pen's odd columns, and not where the backward pen's walk ends. With equal ends it plots
  a stray third pixel, because the remainder of -1 columns is not zero.
- The region labels are a signed char: they serve 255 regions, and no labelling could serve
  more. The 256th would be labelled 0, which means "not yet labelled"; maps with 361
  regions exist.
- The gold cases of the belt in `CheckInvPaste` cannot be reached, since gold is turned
  away before them.
- A client whose connection is gone keeps its seat until a member drops it, and is not
  destroyed before; so its destructor never has a game to leave.
- An incremental redraw of the lights equals one from scratch exactly when, wherever
  nothing is taken back, no lamp of the last picture is brighter than the new picture. One
  change of a lamp between passes is safe if its beam stays in its own square. With the
  game's tables that depends on radius and offset alone: a lamp of radius r may be moved
  toward smaller x or y as far as offsets go, but toward larger x or y by at most 4 (r + 1) / 15
  eighths of a square (radii from 14 on, and two lamps of radius 0, are safe besides). One
  change of a lamp beyond that, and two changes of any, can leave light behind.
- A CL2 run that crosses the end of its row goes on along the same buffer line; exactly
  the streams without such a run decode pixel by pixel.
- `LoadLevel` leaves the missile grid unread and clears the map instead.
- A slider returns to every one of its positions exactly when it has no more steps than
  max - min.
- `RemoveInvItem` does not recompute the player's gold: the displayed sum is off by the
  worth of the removed entry, on top of what it was off before.

## Model

| member | source | states |
|---|---|---|
| Line.DrawLine | Source/engine.cpp:1226-1413 | the plotted pixels are a line (one pixel in every column of the major axis, none twice, each within half a pixel of the ideal line) if and only if the ends differ, and of equally near pixels they are the ones the two pens choose; with equal ends, the exact three pixels |
| Line.DrawingIsUnique | Source/engine.cpp:1280-1413 | with the rule for equally near pixels and the order of the plots the drawing is determined, pixel by pixel |
| Line.TieRises | Source/engine.cpp:1285-1346 | the line from (0, 0) to (6, 1) takes (3, 1), although (3, 0) is as near |
| Line.LineHitsEnds | Source/engine.cpp:1226-1413 | such a line contains both of its end points |
| Line.LineIsMonotoneAndConnected | Source/engine.cpp:1226-1413 | from column to column it moves at most one row, always toward the far end |
| Line.LineIsUniqueUpToTies | Source/engine.cpp:1226-1413 | two such lines differ only where the ideal line runs exactly between two pixels |
| Line.GentlePatterns | Source/engine.cpp:1285-1319 | slopes below one half: the sign of D picks the two next rows that are nearest, the rising one of two, and the update of D keeps its meaning |
| Line.SteepPatterns | Source/engine.cpp:1348-1382 | slopes from one half up: the same, with the rising one of two only in the first column |
| Line.DrawGentle | Source/engine.cpp:1285-1346 | the loop and the tail of gentle slopes put dx + 1 pixels, each in the column its number says, near the line |
| Line.DrawSteep | Source/engine.cpp:1348-1412 | the same for the other slopes; with equal ends, which nothing keeps out, three pixels, the last one off the point |
| Line.SteepRound | Source/engine.cpp:1352-1382 | one turn of that loop: two plots by each pen in the columns they reach, and D keeps its meaning |
| Line.LastGentle | Source/engine.cpp:1321-1345 | the one to three left over pixels, from both ends |
| Line.LastSteep | Source/engine.cpp:1383-1412 | the same for the other slopes; a remainder below 0 makes exactly one plot |
| Line.ColumnOfPlot | Source/engine.cpp:1280-1412 | the order in which the two pens reach the columns misses none |
| Line.PlotOfColumn | Source/engine.cpp:1280-1412 | and repeats none |
| Line.FrameIsLine | Source/engine.cpp:1248-1275 | a line in the normalised octant is one on the screen, whichever axis and direction were swapped |
| Line.FrameJoinsEnds | Source/engine.cpp:1248-1275 | the normalised octant starts at one end and reaches the other |
| Cel.CelDecDatLightOnly | Source/engine.cpp:204-258 | the unrolled decoder writes exactly the frame's pixels, in order, through the table; with the identity table this is `CelDrawDatOnly` |
| Cel.CopyRun | Source/engine.cpp:230-250 | one, then two, then fours copy the same as pixel by pixel |
| Cel.PixelsInOrder | Source/engine.cpp:225-258 | decoded pixels come row by row, left to right, inside the sprite's width |
| Cel.PlainPicture | Source/engine.cpp:204-258 | every pixel of a well-formed frame ends up at its own address with its table value, and no other byte of the buffer changes |
| Cel.CelDecDatLightTrans | Source/engine.cpp:257-339 | the goto-driven decoder writes exactly the pixels whose row plus column is odd |
| Cel.ChequerRun | Source/engine.cpp:288-330 | one run, whichever of L_EVEN and L_ODD is entered and however |
| Cel.ParityIsCheckerboard | Source/engine.cpp:281-288 | comparing the low address bit with `shift` is the parity of row plus column |
| Cel.CheckerboardPicture | Source/engine.cpp:257-339 | in the end a pixel of the frame is drawn if it is in an odd place and what was under it is kept if it is in an even one |
| Cel.NextControl | Source/engine.cpp:225-258 | a control byte of a well-formed stream never leaves its row or the stream |
| Cl2.Cl2DecDatFrm1 | Source/engine.cpp:1639-1702 | the buffer after the stream's writes, without a table |
| Cl2.Cl2DecDatLightTbl1 | Source/engine.cpp:1870-1934 | the buffer after the stream's writes through the table |
| Cl2.Skip | Source/engine.cpp:1686-1701 | the skipping loop with its signed char count ends for every count and row remainder |
| Cl2.WritesArePixels | Source/engine.cpp:1639-1702 | decoding is drawing the stream's dots one by one, row by row, if and only if no run crosses the end of a row |
| Cl2.CrossingStream | Source/engine.cpp:1639-1702 | a stream of four bytes for which it is not |
| Cl2.TranslatedIsWellFormed | Source/engine.cpp:1559-1596 | translating changes the values of each command and nothing that steers the decoder |
| Cl2.DecodeOfTranslated | Source/engine.cpp:1559-1934 | decoding the translated stream through u writes what decoding the stream through "t, then u" writes |
| Cl2.LightIsTranslateThenPlain | Source/engine.cpp:1559-1934 | the table decoder leaves the same buffer as translating first and decoding without a table |
| Cl2.TranslatedTwice | Source/engine.cpp:1559-1596 | translating by two tables in turn is translating by their composition |
| Cl2.TranslateFrame | Source/engine.cpp:1572-1594 | one frame is translated in place and nothing around it changes |
| Cl2.Cl2ApplyTrans | Source/engine.cpp:1559-1596 | all frames of a sheet are translated; headers, frame table and gaps stay |
| Cl2.DwordIsLittleEndian | Source/engine.cpp:1559-1596 | the offsets of the frame table are read with the least significant byte first |
| Cl2.TranslatedSheetDecodes | Source/engine.cpp:1559-1934 | afterwards every frame of the sheet is where it was and decodes without a table to what the original decodes to through it |
| Grid.DrainedIsComponent | Source/drlg_l3.cpp:253-265 | what a fill takes is the start cell's component |
| Grid.GrownStaysConnected | Source/drlg_l3.cpp:349-352 | cells added next to floor never disconnect one component |
| Cave.Generator.FillRoom | Source/drlg_l3.cpp:469-511 | a room is dug if and only if it is in range and nothing in it was dug: its inside, and any part of its rim |
| Cave.Generator.CreateBlock | Source/drlg_l3.cpp:513-593 | the four-way recursion ends for every random sequence; the rooms it digs form a tree of neighbours, each where nothing was dug; a room that goes on growing tries all its directions, and without a room the rectangle tried could not be dug; with the highest numbers every room grows until no block can be dug |
| Rooms.NeighboursTouch | Source/drlg_l3.cpp:520-574 | a block shares a stretch of edge with the one it grew from |
| Cave.Generator.DigRooms | Source/drlg_l3.cpp:332-340 | all rooms of a cave form one such tree around a first room of three by three cells |
| Cave.Generator.FillDiags | Source/drlg_l3.cpp:606-629 | every 2x2 square dug on a diagonal loses that: one of its other cells is dug too; only such cells are dug, within the bounding box |
| Cave.Generator.FillSingles | Source/drlg_l3.cpp:631-645 | exactly the cells ringed by floor are dug, although the scan changes what it reads |
| Cave.Generator.FillStraights | Source/drlg_l3.cpp:647-723 | four scans, of which each digs, line by line, cells of runs of more than three empty cells beside floor that end before column 37, all of them with the highest numbers; floor spreads up and left by one line, down and right to the last line at most |
| Cave.Generator.FillStraight | Source/drlg_l3.cpp:651-668 | one line of a scan: some of the cells of its long runs, or all with the highest numbers |
| Smoothing.RunEnds | Source/drlg_l3.cpp:653-667 | the counter of the scan finds exactly the maximal runs longer than three that have ended |
| Cave.Generator.Smooth | Source/drlg_l3.cpp:349-352 | the four passes in order, each as it should be, keep one component one component, for every random outcome |
| Cave.Generator.Edges | Source/drlg_l3.cpp:725-735 | exactly the last row and column are cleared |
| Cave.Generator.LockRec | Source/drlg_l3.cpp:253-265 | the unguarded recursion ends, stays in the array when no locked cell is on the ring, takes exactly the start cell's component and counts it |
| Cave.Generator.Lockout | Source/drlg_l3.cpp:267-289 | TRUE if and only if the floor is one 4-connected component |
| Cave.Generator.Attempt | Source/drlg_l3.cpp:331-357 | one round of the generator: the rooms of a tree and the hall if it is wanted, smoothed by the four passes, without the last row and column; the ring is clear, and the cave is accepted if and only if it has at least 600 cells and is one component |
| Cave.Generator.GetFloorArea | Source/drlg_l3.cpp:737-750 | the number of floor cells |
| Flood.Transparency.FloodTVal | Source/drlg_l1.cpp:1599-1617 | every floor tile is labelled, two have the same label if and only if they are 8-connected through floor; the regions are numbered in the order in which the scan meets their first tiles, and the map is exactly their halos painted in that order; TransVal counts the regions |
| Flood.PictureAt | Source/drlg_l1.cpp:1599-1660 | in that map a place carries the label of the last region whose halo it lies in, or none |
| Flood.Transparency.FTVR | Source/drlg_l1.cpp:1619-1660 | the recursion ends for every map whose outer ring is not floor, and what it writes is the paint of a fill |
| Flood.FillTakesRegion | Source/drlg_l1.cpp:1619-1660 | started on an unlabelled tile it labels the halo of that tile's region, and exactly that |
| Flood.RingIsHalo | Source/drlg_l1.cpp:1624-1657 | the eight stop branches and the block make up the ring of half tiles around a tile |
| Flood.PassIsComplete | Source/drlg_l1.cpp:1599-1617 | after the scan labels and regions correspond one to one |
| Flood.LabelsLast | Source/drlg_l1.cpp:1611 | the labels of n regions are distinct and not 0 if and only if n is at most 255 |
| Flood.LabelValues | Source/drlg_l1.cpp:1611 | the first 127 regions are numbered from 1, the next 128 from -128 |
| Flood.FewRegions | Source/drlg_l1.cpp:1599-1617 | a map that any labels of one signed char can serve has at most 255 regions |
| Flood.TooManyRegions | Source/drlg_l1.cpp:1599-1617 | there is a map within the ring that they cannot serve |
| InvGrid.ListNeverOverflows | Source/inv.cpp:457-510 | by pigeonhole an item list that the grid shows has at most 40 entries, and fewer while a cell is free |
| InvGrid.GridOfRects | Source/inv.cpp:457-510 | where the items stand determines every cell of the grid |
| InvGrid.PositiveEntriesAreItems | Source/inv.cpp:457-510 | positive cells and list entries are in bijection, and every negative cell belongs to one of them |
| InvGrid.PlaceShows | Source/inv.cpp:486-506 | writing an item on free cells keeps grid and list in agreement |
| InvGrid.MoveLastShows | Source/inv.cpp:1281-1307 | so does renaming the last item to the number that became free |
| Inventory.Player.AutoPlace | Source/inv.cpp:457-510 | succeeds if and only if the rectangle is in the grid and free; then the item is the last entry and stands there |
| Inventory.Player.GoldAutoPlace | Source/inv.cpp:579-642 | gold goes to the first pile with room, else as a new pile to the last empty cell, else nowhere; no item moves and the displayed gold is recomputed |
| Inventory.Player.WeaponAutoPlace | Source/inv.cpp:644-668 | succeeds if and only if a hand is free for it, and keeps the hands in order |
| Inventory.Player.SwapBody | Source/inv.cpp:670-679 | what was worn is in hand, shown by the cursor; nothing is lost |
| Inventory.Player.CalculateGold | Source/inv.cpp:2187-2204 | the gold of belt and grid |
| Inventory.Player.RemoveInvItem | Source/inv.cpp:1281-1307 | grid and list still agree, exactly one entry is gone, the last one has its number, nothing else moves, and the displayed gold is off by its worth more than before |
| Inventory.Player.PasteOneHand | Source/inv.cpp:845-892 | which hand takes the item in each of the cases, what comes back, and that the hands stay in order |
| Inventory.Player.PasteTwoHand | Source/inv.cpp:893-936 | a two-hander ends up alone; of two items one must first find a place in the grid, and gets the first that takes it, else nothing happens |
| Inventory.ShieldGivesWay | Source/inv.cpp:897-900 | the item that must find a place is a shield if a hand holds one, else the left one |
| Inventory.Player.ScanOverlap | Source/inv.cpp:746-793 | the scan accepts exactly the rectangles in the grid that meet at most one item, and names it |
| Inventory.Player.PasteGold | Source/inv.cpp:944-991 | gold as a new pile on an empty cell, into a pile (what does not fit stays in hand) or in the place of another item; total gold is kept and no pile exceeds the limit |
| Inventory.Player.PasteItem | Source/inv.cpp:992-1028 | an item on free cells joins the list and stands on the rectangle under the click; over one item it stands there in its place; over two it is refused; nothing else moves |
| Inventory.Player.PasteBelt | Source/inv.cpp:1029-1076 | the belt slot holds the item, and its old item is in hand |
| Inventory.Player.CheckInvPaste | Source/inv.cpp:681-1084 | for every slot and item: items other than gold and the total gold are kept, the inventory stays valid, a refused item changes nothing; what is in the list, where it stands, what is worn, on the belt and in hand afterwards; and the containers that were not clicked are unchanged |
| Inventory.Player.CheckInvCut | Source/inv.cpp:1112-1266 | for every slot: what was there, and only that, moves to the hand, and no other item moves; nothing is lost and the inventory stays valid |
| Inventory.CountUpdate | Source/inv.cpp:670-679 | replacing one entry changes the items and the gold of a list by exactly that entry |
| Inventory.CountSwap | Source/inv.cpp:670-679 | exchanging two entries changes neither |
| Server.Registry.OnReceive | Server/main.cpp:193-271 | every packet, with bytes left over or not, keeps the registry valid (a client has game g and number i if and only if slot i of g holds it, every game has a member and its own name), closes only a connection with a bad packet, and has exactly the outcome of its handler: which games there are, who sits where, and what each client is sent |
| Server.Registry.HandleMessage | Server/main.cpp:248-254 | a message reaches its addressee, or exactly the other open members of the sender's game, under the sender's number, and nobody else; no seat changes |
| Server.Registry.HandleTurn | Server/main.cpp:255-261 | a turn reaches exactly the other open members; no seat changes |
| Server.Registry.HandleCreate | Server/main.cpp:212-224 | a new name gives a game with the values asked for and its creator in slot 0, who is sent the acceptance under the request's cookie; a name in use is refused under it and nothing changes |
| Server.Registry.HandleJoin | Server/main.cpp:225-233 | if anything speaks against it, that reason is sent under the request's cookie, and nothing changes; else the client sits in the first free slot, is sent the acceptance with that cookie, slot and the game's data, and all open members hear of it |
| Server.Registry.Join | Server/main.cpp:280-295 | the same for a client in no game |
| Server.Registry.HandleLeave | Server/main.cpp:234-240 | the leaver's slot, and no other, is cleared, and exactly the open members are told |
| Server.Registry.HandleDrop | Server/main.cpp:241-247 | exactly the member in the slot loses its game, and exactly the open members are told |
| Server.Registry.DropPlayer | Server/main.cpp:164-181 | all open members, the leaver too, are told, and the game closes if and only if it was the last |
| Server.Registry.Seat | Server/main.cpp:150-162 | the first free slot, and who is told |
| Server.Registry.GetGameList | Server/main.cpp:106-113 | the list names exactly the games of this version with a free slot |
| Server.Registry.Accept | Server/main.cpp:85-138 | a new connection is greeted with the version and is in no game |
| Server.Registry.HangUp | Server/server.hpp:106-121 | the last operation of a connection ends and nobody tells the game: the client keeps its seat and is still referred to |
| Server.Registry.Destroy | Server/main.cpp:273-278 | a client that no slot refers to is in no game, so destroying it changes no game |
| Server.Game.Send | Server/main.cpp:183-191 | every open member in the mask gets the packet once |
| Tiles.PlaceOfSquare | Source/gendung.cpp:485-493 | every square has a place below n*n, and can be read back from it |
| Tiles.SquareOfPlace | Source/gendung.cpp:485-493 | every place below n*n belongs to a square |
| Tiles.PlacesInOrder | Source/gendung.cpp:485-493 | the places run by diagonals from the corner (0, 0), and on each by x, above the anti-diagonal as below |
| Tiles.HalfTurn | Source/gendung.cpp:485-493 | a half turn of the map counts the places from the end |
| Tiles.CantorForm | Source/gendung.cpp:485-493 | below the anti-diagonal the formula is Cantor's pairing |
| Tiles.SetSpeedCels | Source/gendung.cpp:495-504 | every entry of the map lands in its place; every place is filled and nothing is lost; the places are in that order |
| Tiles.FrameTables.SortTiles | Source/gendung.cpp:449-465 | the counts never increase, although passes stop early; all four tables are in one common order, and equal counts keep theirs |
| Tiles.FrameTables.SwapTile | Source/gendung.cpp:467-483 | the same two entries of all four tables change places |
| Tiles.SortedStablyIsBefore | Source/gendung.cpp:449-465 | that order puts larger counts first and equal ones as they were |
| Tiles.StableOrderIsUnique | Source/gendung.cpp:449-465 | there is only one such order |
| Codec.Encode | Source/codec.cpp:108-146 | the buffer holds the cipher text of the padded message and its trailer |
| Codec.CipherBytes | Source/codec.cpp:119-132 | byte k of the cipher text is byte k of the plain text exclusive-or byte k % 64 % 20 of the hash of the whole blocks before it |
| Codec.EncodedBytes | Source/codec.cpp:114-137 | the same in the encoded file, where the padding is enciphered too |
| Codec.ChainMore | Source/codec.cpp:114-132 | the hash starts with the key of the password and takes in the plain text block by block |
| Codec.Decode | Source/codec.cpp:22-63 | for every input: the length it names if the file is accepted, else 0; whole blocks are replaced by the plain text, the trailer and other files are left alone |
| Codec.PlainOfCipher | Source/codec.cpp:22-146 | the keystreams agree block by block, so deciphering undoes enciphering |
| Codec.CipherOfPlain | Source/codec.cpp:22-146 | and the other way round |
| Codec.DecodeOfEncode | Source/codec.cpp:22-146 | decoding an encoded message gives its length and its bytes; a non-empty one is accepted |
| Codec.AcceptedIsEncoded | Source/codec.cpp:22-146 | a file is the encoding of a message if and only if it is accepted, names a possible last block and has zeros where nothing is stored |
| Stream.Buffer.Save | Source/loadsave.cpp:440-467 | the value's bytes are appended and the cursor moves past them |
| Stream.Buffer.Load | Source/loadsave.cpp:187-218 | the value is read back and the cursor is at what follows |
| Stream.FileBytes | Source/loadsave.cpp:440-467 | a word stands in the file with its most significant byte first; bytes keep their low 8 bits, flags without the lowest three |
| Stream.DecOfEnc | Source/loadsave.cpp:187-467 | words come back as they were, bytes as signed chars, truth values as 0 or 1 |
| Stream.KeptInRange | Source/loadsave.cpp:187-467 | a signed char is kept; flags lose three bits and no other |
| Stream.CharIsSigned | Source/loadsave.cpp:187-190 | a byte is read back as the signed number with its bits |
| Stream.Buffer.SaveGrid | Source/loadsave.cpp:534-613 | a grid is written row by row |
| Stream.ByteOfSquare | Source/loadsave.cpp:534-613 | in a grid of w columns square (i, j) is byte w * j + i |
| Stream.Buffer.LoadGrid | Source/loadsave.cpp:626-705 | and every square gets its own value back |
| Stream.Buffer.SaveRecords | Source/loadsave.cpp:475-497 | the records in use are written in the order of the active list |
| Stream.Buffer.LoadRecords | Source/loadsave.cpp:226-250 | they return to their own slots, and the other slots are untouched |
| Stream.ConcatJoin | Source/loadsave.cpp:534-613 | what is written part by part is the parts one after the other |
| Level.World.SaveLevel | Source/loadsave.cpp:534-624 | the buffer holds the level's file, in town and in the dungeon |
| Level.World.LoadLevel | Source/loadsave.cpp:626-718 | from a saved level's file, with the counts in it driving the loops, everything is restored as its encoding keeps it, and the reader ends exactly before the missiles |
| Level.World.ClearMissiles | Source/loadsave.cpp:701-704 | the missile map is all zeros |
| Level.LoadedIsSaved | Source/loadsave.cpp:534-718 | counters, index tables, records in use and maps of a level in range are equal to what was saved, flags but for three bits, missiles gone |
| Level.LeaveAndReturn | Source/loadsave.cpp:534-718 | saving a level, reading its bytes from another buffer and loading them over any memory gives that level back |
| Level.World.Empty | Source/loadsave.cpp:534-718 | an empty level can be saved and loaded |
| Lamps.DoLighting | Source/lighting.cpp:479-600 | every square of the map becomes the brighter of its shade and the light's, for every position, radius and offset |
| Lamps.AroundIsSpot | Source/lighting.cpp:532-599 | every square but the centre lies in exactly one of the four quarters |
| Lamps.RotateRadius | Source/lighting.cpp:452-477 | a quarter turn of the offset, with its borrow from the next block |
| Lamps.DoUnLight | Source/lighting.cpp:602-632 | exactly the square around the light is reset, clipped to the map |
| Lamps.RelitIsBrightest | Source/lighting.cpp:1118-1123 | under several lights a square has the brightest of its own shade and theirs |
| Lamps.RelitInAnyOrder | Source/lighting.cpp:1118-1123 | the order of the lights does not matter |
| Lights.RedrawnInAnyOrder | Source/lighting.cpp:1098-1138 | the redrawn picture depends on which lights are live, not on their order in the list |
| Lights.RedrawnIsFresh | Source/lighting.cpp:1105-1123 | a square redrawn over an exact old picture is as if drawn from scratch if and only if it is taken back or no old lamp is brighter there than the new picture |
| Lights.TrackedLeaveNothing | Source/lighting.cpp:1105-1123 | that holds if every lamp drawn before is redrawn or has its own square taken back, and none of them reaches out of it |
| Lights.Lighting.BeamsAreEnclosed | Source/lighting.cpp:479-632 | with the game's tables, lamps whose offsets are within the bound for their radii do not reach out of the squares taken back for them, which is what one change between passes needs |
| Lights.DeletedLampIsGone | Source/lighting.cpp:1098-1138 | when the only lamp is deleted, the next pass leaves the map's own picture if and only if radius and offset are within that bound |
| Lights.OneChangeLeavesLight | Source/lighting.cpp:479-632 | a lamp moved by half a square and then changed once leaves light of shade 14 where a fresh picture has 15 |
| Lights.TwoChangesLeaveLight | Source/lighting.cpp:1082-1096 | with any tables, a lamp changed twice between passes leaves the brightest light where it was drawn |
| LightTables.SpotIsRound | Source/lighting.cpp:479-600 | with the tables the game fills, what a light does on a square is the shade of its distance, however the four quarters turn the tables |
| LightTables.DarkFrom | Source/lighting.cpp:918-926 | the shade is 15, the darkest, exactly from 116 (r + 1) / 15 eighths of a square on |
| LightTables.ShadeIsNearest | Source/lighting.cpp:918-926 | up to the radius the shade is in proportion to the distance, to the nearest whole number and upward from a half |
| LightTables.BeamStaysInside | Source/lighting.cpp:479-632 | within the bound on radius and offset a light does nothing outside the half-open square of DoUnLight, anywhere on the map |
| LightTables.BeamInsideIff | Source/lighting.cpp:479-632 | for the lights of a level that bound is exact: the beam stays in the square if and only if the offsets are within it |
| Lights.EverySlotListed | Source/lighting.cpp:990-1001 | the list names every slot |
| Lights.IdCount | Source/lighting.cpp:1003-1026 | there are as many live lights as `numlights` says |
| Lights.SwapKeeps | Source/lighting.cpp:1124-1134 | exchanging two entries keeps the list a permutation and its front the same lights |
| Lights.Lighting.InitLighting | Source/lighting.cpp:990-1001 | a permutation with no live light |
| Lights.Lighting.AddLight | Source/lighting.cpp:1003-1026 | returns a slot that is not live, or -1 if and only if lighting is off or all 32 are live |
| Lights.Lighting.AddUnLight | Source/lighting.cpp:1028-1036 | only marks the light, and a pass becomes due; the lamps drawn stay tracked |
| Lights.Lighting.ChangeLight | Source/lighting.cpp:1082-1096 | records where the light was; the lamps drawn stay tracked unless a change was recorded already |
| Lights.Lighting.ChangeLightOff | Source/lighting.cpp:1067-1080 | the same for the offset |
| Lights.Lighting.SavePreLighting | Source/lighting.cpp:1140-1143 | makes the present picture the map's own, and so exact |
| Lights.Lighting.ProcessLightList | Source/lighting.cpp:1098-1138 | exactly the undeleted lights stay live; afterwards the lamps drawn are those of the live lights, all tracked, and an exact picture (dPreLight under the lamps drawn) is exact again if and only if nothing of the old lamps is left, as when they are tracked and enclosed |
| Lights.Lighting.Remove | Source/lighting.cpp:1124-1134 | the deletion loop ends with exactly the undeleted lights in front |
| Vision.VisionMap.ProcessVisionList | Source/lighting.cpp:1211-1254 | exactly the entries without the flag stay, each as often as it occurred |
| Vision.VisionMap.Delete | Source/lighting.cpp:1239-1250 | the deletion loop ends although a pass skips the entry it has just moved |
| Vision.VisionMap.AddVision | Source/lighting.cpp:1158-1176 | the id was never given out before, since the counter grows with every entry and never falls |
| Vision.UnflaggedCounts | Source/lighting.cpp:1239-1250 | what is kept counts each unflagged entry as often as it occurs, and no other |
| Vision.ReplacedDropsOne | Source/lighting.cpp:1242-1248 | putting the last entry in the place of a flagged one loses only that |
| FileWindow.ReadOnlyFile.Getc | Source/jsfs.cpp:169-180 | the byte of the file at the position, whether the window holds it or not; EOF at the end |
| FileWindow.ReadOnlyFile.Read | Source/jsfs.cpp:204-227 | the bytes an uncached file would give, by a hit, a reload or past the window; the rest of the buffer is untouched |
| FileWindow.ReadOnlyFile.Seek | Source/jsfs.cpp:187-199 | the position an uncached file would have |
| FileWindow.ReadOnlyFile.Play | Source/jsfs.cpp:155-227 | every run of getc, read and seek answers as an uncached file does and ends in the same place |
| FileWindow.ReadSplits | Source/jsfs.cpp:204-227 | two reads in a row give what one read of both sizes gives |
| Slider.PositionOfValue | Source/gmenu.cpp:383-407 | with 2 <= n <= m, setting a slider to the value it shows does not move it |
| Slider.AllStayIff | Source/gmenu.cpp:383-407 | all positions survive get and set if and only if there are no more steps than units |
| Slider.ValueOfPosition | Source/gmenu.cpp:383-407 | the position set for a value is set again from the value that it shows |
| Slider.Nearest | Source/gmenu.cpp:383-407 | set and get round to the nearest |
| Slider.ValueMonotone | Source/gmenu.cpp:398-407 | a later position shows no smaller value |
| Slider.EndValues | Source/gmenu.cpp:398-407 | the end positions show min and max |
| Slider.TMenuItem.SliderSet | Source/gmenu.cpp:383-393 | the position field is the position of the value; step count and flags are kept |
| Slider.TMenuItem.SliderGet | Source/gmenu.cpp:398-407 | the value of the position, between min and max while the position is one of the slider's |
| Slider.TMenuItem.SliderSteps | Source/gmenu.cpp:412-416 | only the step count changes |

## Left out

- Screen: clipping to the buffer's end, palettes, cursors and the automap that calls `DrawLine`; what is plotted or decoded is modelled, not the display.
- Line.DrawLine: 32-bit overflow for ends more than 2^29 apart, which no screen has.
- Cel: `CelDrawDatOnly` is the text of `CelDecDatLightOnly` without the table look-up and is covered as its identity table; the frame table of a CEL file is not read.
- Cl2.Cl2DecDatFrm1: the control byte 0x80, whose count overflows a signed char, and streams that end inside a command; the same for the other CL2 routines.
- Cl2: the header of a frame that gives the start of its parts (`CelSkip`, `CelCap`).
- Cave: the retry loop around a round and what follows an accepted cave (lava, mini-sets, objects); whether a round ever succeeds depends on the random source.
- Flood.Transparency.FloodTVal: what the pass does with more than 255 regions, which no labels can serve, and a label map that is not fresh.
- Generators of the other levels: halls, rooms and tile substitution, which have no property of this kind.
- Inventory: which rectangle of the panel the mouse hits (the slot number is a parameter), network messages, sounds, the spell a staff gives, `CalcPlrInv`, `CheckInvSwap`, `SpecialAutoPlace`, items on the floor and the durability code. The stat requirement is a parameter.
- Server: threads and locks (a handler is one step), parsing of packets (a parameter says whether it failed or left bytes over), the web socket but for whether it still refers to its client.
- Server.Registry.HandleDrop: slot numbers from 4 up, with which the code indexes past its array.
- Server.Registry.HandleMessage: addressees from 32 to 254, for which the shift is undefined in C++.
- Server.Registry.OnReceive: the same two ranges.
- Codec: the SHA-1 rounds and the key set-up; the wiping of the key afterwards.
- Level: the pointers inside records and the calls that rebuild them (`SyncMonsterAnim`, `SyncObjectAnim`, `GetItemFrm`), `SetDead`, quests and portals, the file around the buffer, `SaveGame` and `LoadGame`.
- Level.World.LoadLevel: files that `SaveLevel` did not write.
- Lamps: the tables are arbitrary tables of shades; LightTables has the game's, with roots and quotients exact instead of in floating point.
- LightTables.BeamInsideIff: lights nearer than 16 squares to the map's edge, where no level is; there only one direction (`BeamStaysInside`) is proved.
- Lights.Lighting.AddLight: radii outside 0..15, for which there is no light table.
- Lights.Lighting.ChangeLightOff: offsets outside -8..7, for which the table index leaves its table.
- Vision.VisionMap.ProcessVisionList: what is seen (`DoVision`, `DoUnVision`) and the transparency list; the list alone is modelled.
- FileWindow.ReadOnlyFile.Read: buffers so large that position plus size wraps around a 32-bit `size_t`.
- FileWindow: files that change while they are open.
- Slider.TMenuItem.SliderSet: values outside the slider's range, whose bits would spill into the other fields, and products that overflow an int.
- Slider.TMenuItem.SliderGet: products that overflow an int.
- Slider: the bit masks of `dwFlags`, which are written as digits of 12 bits.
