# Verification of nife's userspace protocols and host-side checkers

A Dafny model of the parts of nife, a capability microkernel, whose correctness is a claim about every run rather
than about one call, with proofs of those claims.

**The display pipeline.** Terminals and a compositor share surfaces and control pages and synchronise by rectangle,
sequence and acknowledgement. `DisplayProtocol` interleaves them one memory access at a time and proves that no damage
is ever lost and that the screen at rest is the full recomposition. `Frame` and `Composite` are the compositor's loop
and its composition in place; `Surface` and `Presenting` are the terminal's in-place scroll and repaint; `InputRing`
is the keyboard ring and focus routing; `ScreenGeometry` and `Raster` are rectangles and pixels in memory.
`DamageEngine` is the terminal engine's damage bookkeeping. The presenting code relies on the engine's promise that
rows outside the reported box are the old rows moved up. That promise is not kept by every run of the engine: a scroll
does not move the box already recorded, and rows an earlier scroll exposed are never compared. The module gives the
concrete screens and proves the exact guard, on fields the engine has, under which a scroll keeps the promise. Where the
surface is taller than its grid, a true report can still move the strip below it onto a row of cells; that has its exact
condition too.

**The file-system caretakers.** `ServerTree` is a tree whose handles carry rights and whose names resolve strictly
downward, and `TreeLaws` what a holder of a handle may rely on. `NamesetCaretaker` is the set caretaker's request as a
function, `NamesetProxy` the same on its table and page in place, `CaretakerRuns` the claims about every run,
`Transparency` what a permitted request is answered and a forbidden one refused, and `Confinement` the two-run theorem. The caretaker forwards
attribute verbs on the granted directory, STATFS and SYNC unfiltered, though the protocol's text says a caretaker
refuses attributes; so the outside is not wholly hidden, and `Visibility` proves exactly what of it each grant shows.
`FileCaretaker` is the one-file caretaker.

**The partition writer.** `Blocks` is unaligned read-modify-write over a block service whose calls may fail or tear at
any moment; `Partitioner` is the five-region write of section 5.3 of the UEFI Specification, with the protective MBR
of section 5.2.3, and the read-back. Both say exactly when they succeed; a disk in whole logical blocks but
not in whole transfer blocks never does.

**Stream components.** `Broker`, `Entropy` and `Console` each refine a mutable buffer to a plain sequence. A refused
entropy request stays published, and the next accepted one makes the device fill the buffer twice: `Entropy` proves
that the device's bytes are conserved if and only if no request is accepted after one that was refused.

**Host-side checkers.** `Ratchet`, `Packages`, `Orphans` and `Frontmatter`. The module walk keys what it has seen by
file alone; `Orphans` proves exactly which declared files it then misses, and gives a tree with one. The package checker
places programs by name, so two crates' programs of one name share a package. A frontmatter body loses its leading blank
lines, and a value of only spaces reads cleanly but cannot be printed back; `Frontmatter` states the round trips as
equivalences.

`WrapArithmetic` holds the division facts the rings share, and `PathText` paths as text.

Where a module has both functions and a class, the class is the program on its own arrays and fields and each of its
methods is proved to compute the function; the run theorems are about the function.

## Assumptions

- Steps are sequentially consistent; the source documents its fences as pairs.
- A block call that succeeds moved its whole block; a block not wholly on the disk fails.
- The entropy device completes each accepted request within the wait, serving every request published by then, and only
  while the driver waits.
- A caretaker's client is blocked during its request, so the page changes only between requests.
- A terminal stores only under the cells it reported, which is what `Presenting` proves of a true report.

## Model

| member | source | states |
|---|---|---|
| `DisplayProtocol.NoDamageIsLost` | components/src/display_terminal.rs:335-378 | In every state of every interleaving of terminal and compositor accesses, each pixel where the screen differs from recomposing the committed surfaces is in a terminal's unpublished work, its published and unscanned rectangle, or the compositor's own damage. |
| `DisplayProtocol.QuiescentScreenIsExact` | components/src/compositor.rs:253-328 | Whenever nobody is painting, publishing or compositing and every frame is acknowledged, the incremental screen equals full recomposition at every pixel. |
| `DisplayProtocol.AnsweredMeansAcknowledged` | components/src/compositor.rs:253-314 | A COMMIT is answered only when the caller's last sequence has been scanned and acknowledged. |
| `DisplayProtocol.StepKeepsInv` | components/src/compositor.rs:253-328 | The invariant survives every single memory access of either side, in any order. |
| `DisplayProtocol.InitHasInv` | components/src/compositor.rs:331-358 | The start state, one background paint with nobody committed, satisfies it. |
| `DisplayProtocol.CarriedForward` | components/src/display_terminal.rs:335-355 | A terminal that finds its last frame unacknowledged loses none of that frame's pixels from the next rectangle it names. |
| `DisplayProtocol.TerminalKeepsItsWork` | components/src/display_terminal.rs:268-378 | After its first publication no step of a terminal drops a pixel from its pending work or changes one outside it. |
| `DisplayProtocol.TerminalActionAccounts` | components/src/display_terminal.rs:268-378 | A terminal's store can make the screen stale only where its window is on top, and there the pixel is on the terminal's list. |
| `DisplayProtocol.LoadSeqAccounts` | components/src/compositor.rs:264-270 | Committing a client for the first time, which changes what recomposition means, leaves every changed pixel on some list. |
| `DisplayProtocol.WordsReadAreThePublication` | components/src/compositor.rs:291-296 | Four words read one at a time give back the published rectangle if the terminal has not begun to republish. |
| `DisplayProtocol.AccumulateGrows` | components/src/compositor.rs:306 | Accumulating never shrinks the frame's damage and adds every on-screen pixel the client owns and named. |
| `DisplayProtocol.AcknowledgeAccounts` | components/src/compositor.rs:307-313 | Writing ACKED before the pixels are composited loses nothing, because the rectangle is already in the local damage. |
| `DisplayProtocol.AcknowledgedIsForgotten` | components/src/display_terminal.rs:335-355 | What was acknowledged is not named again: the next rectangle is the new work alone. |
| `DisplayProtocol.EveryFrameEnds` | components/src/compositor.rs:253-328 | In every run, however the terminals interleave, the compositor takes at most seven steps a client, one a pixel and two more before it waits again, and never lacks a step to take; so a blocked caller is answered. |
| `DisplayProtocol.StepsCount` | components/src/compositor.rs:253-328 | Each step of the compositor brings its frame's end nearer, and no terminal's step puts it off. |
| `DisplayProtocol.NeverStuck` | components/src/compositor.rs:253-328 | A compositor in a frame always has a step to take. |
| `ScreenGeometry.IntersectPoints` | crates/compositor/src/lib.rs:244-264 | The clip of two rectangles with saturating 32-bit edges holds exactly the points both hold. |
| `ScreenGeometry.UnionCovers` | crates/compositor/src/lib.rs:270-290 | The bounding box covers both rectangles and stays on the screen. |
| `ScreenGeometry.DamageToScreenPoints` | crates/compositor/src/lib.rs:516-521 | Whatever four words a client wrote, the placed rectangle holds a screen point exactly when the client named the pixel under it and owns it. |
| `ScreenGeometry.CellUnionCovers` | crates/video_terminal/src/lib.rs:663-687 | The union of two cell boxes covers, in pixels, what either covered. |
| `Composite.Composite` | crates/compositor/src/lib.rs:541-574 | Inside the damage every pixel becomes the topmost committed window's or the background's; outside it nothing changes, for any rectangle asked. |
| `Composite.PaintBackground` | crates/compositor/src/lib.rs:547-552 | Exactly the damaged pixels become background. |
| `Composite.DrawWindow` | crates/compositor/src/lib.rs:554-573 | One window changes exactly the damaged pixels it covers, each to the surface pixel under it. |
| `Composite.BlitWindow` | crates/compositor/src/lib.rs:564-572 | Copying row by row out of the surface lands each pixel at its own place, with no row spilling into the next. |
| `Composite.ExpectedFollowsTop` | crates/compositor/src/lib.rs:474-494 | Painting back to front and asking which window is on top are the same picture. |
| `Composite.ExpectedIsRecomposed` | components/src/compositor.rs:319-328 | What the composition writes is the recomposition the interleaving theorems speak of. |
| `Frame.Compositor.constructor` | components/src/compositor.rs:337-356 | Before anyone commits the whole screen is the background, which is exact for any surfaces. |
| `Frame.Compositor.ScanOne` | components/src/compositor.rs:264-307 | A page with the sequence last seen is left alone. A new one ends with its acknowledgement equal to its sequence and marked clipped exactly when the rectangle it names is not on its surface, its client's own words untouched; it is committed and its placed damage is gathered. |
| `Frame.Compositor.Scan` | components/src/compositor.rs:262-308 | After the loop every page has been answered so, every sequence is the one last seen, and the damage covers everything any new client placed on the screen. |
| `Frame.Compositor.ServeFrame` | components/src/compositor.rs:253-328 | After a frame every page is acknowledged at its sequence and marked by where its rectangle lies; and if the screen was exact before it and clients changed pixels only under what they published, it is exact after it: compositing the damage equals compositing everything. |
| `Frame.ScanIsTheProtocols` | components/src/compositor.rs:262-308 | One turn of the scan loop is a run of the interleaving protocol's compositor on that client, so the theorems about every interleaving speak of this loop. |
| `Frame.ProtocolTakesUp` | components/src/compositor.rs:264-307 | The protocol's steps on a new sequence, undisturbed: loaded, the four words read, accumulated, and the acknowledgement set to the sequence. |
| `Frame.InsideIsUnclipped` | crates/compositor/src/lib.rs:244-264 | A rectangle is its own clip exactly when it lies on the surface. |
| `Frame.InsidePoints` | components/src/compositor.rs:291-305 | For a rectangle that names any point, that is when every point of it is on the surface. |
| `Frame.OutsideIsSame` | components/src/compositor.rs:253-328 | No pixel outside the gathered damage can differ between the old and the new full picture. |
| `Frame.WindowSame` | components/src/compositor.rs:264-307 | A client that kept its contract shows the same pixel wherever it placed no damage, a first commit included. |
| `Frame.GatherOne` | components/src/compositor.rs:306 | One more client's rectangle joins the damage without uncovering another's. |
| `Frame.PlacedPoints` | components/src/compositor.rs:291-306 | A page's placed rectangle is on the screen and holds exactly the named, owned points. |
| `InputRing.RoutedByFocus` | components/src/compositor.rs:205-245 | With a client to focus: one delivery per byte that is no focus move, in its turn, to the client numbered by how many focus bytes came before it modulo the focusable clients, and no others. |
| `InputRing.CountsOf` | components/src/compositor.rs:224-232 | The focus moves counted are the focus bytes of the stream. |
| `InputRing.RoutedToNobody` | components/src/compositor.rs:205-245 | With nobody to focus nothing is delivered. |
| `InputRing.WrittenHolds` | components/src/keyboard_driver.rs:205-210 | The last 256 bytes pushed are still in their slots. |
| `InputRing.ReadIsExact` | components/src/compositor.rs:219-223 | A reader no more than a ring behind finds exactly the bytes typed. |
| `InputRing.BatchesSurviveIffTheyFit` | components/src/keyboard_driver.rs:205-223 | The producer never looks for room, so a batch reaches the reader unchanged if and only if it is at most 256 bytes. |
| `InputRing.Ring.constructor` | components/src/compositor.rs:205-245 | An empty ring routes nothing and focuses client 0. |
| `InputRing.Ring.Push` | components/src/keyboard_driver.rs:205-210 | The byte lands in the slot of the true count across 32-bit index wrap. |
| `InputRing.Ring.Publish` | components/src/keyboard_driver.rs:212-223 | Publication makes everything pushed readable. |
| `InputRing.Ring.TakeOne` | components/src/compositor.rs:219-243 | One turn consumes one byte and keeps delivery and focus in step with the bytes consumed. |
| `InputRing.Ring.Drain` | components/src/compositor.rs:205-245 | A drain ends with everything published consumed once in order and routed by focus, and equal to what was typed if the producer never lapped it. |
| `Surface.ScrollSurface` | components/src/display_terminal.rs:207-229 | For every stride, width, height and shift the in-place top-down move leaves the old rows shifted up, with the bottom rows, the padding and everything past the surface untouched. |
| `Surface.ScrollIsDetermined` | components/src/display_terminal.rs:207-229 | A scroll has only one result, so the 64-bit path and the 32-bit path leave the same memory. |
| `Surface.MoveRowWide` | components/src/display_terminal.rs:212-222 | Whole 64-bit words and the odd tail word move one row and nothing else. |
| `Surface.MoveRowNarrow` | components/src/display_terminal.rs:223-227 | The 32-bit loop moves the same row and nothing else. |
| `Surface.OneMoreRow` | components/src/display_terminal.rs:210-228 | Moving one row extends the scrolled part by a row without disturbing the rows still to be read. |
| `Surface.PaintRow` | components/src/display_terminal.rs:182-188 | One row of the rectangle takes the picture's pixels. |
| `Surface.Paint` | components/src/display_terminal.rs:172-191 | Exactly the rectangle takes the picture's pixels. |
| `Presenting.MoveThenRender` | components/src/display_terminal.rs:268-309 | Moving pixels and repainting the damage reproduces the whole new picture if and only if the engine kept its promise about the rows outside the damage. |
| `Presenting.StripsSurviveScroll` | components/src/display_terminal.rs:276-305 | The strips no cell covers keep their value through a scroll. |
| `Presenting.Wiring.constructor` | components/src/display_terminal.rs:231-250 | Nothing painted, nothing published. |
| `Presenting.Wiring.Render` | components/src/display_terminal.rs:268-309 | The first frame is the whole picture; later ones show it exactly when the report was true; the rectangle handed on holds every changed pixel and padding never changes. |
| `Presenting.Wiring.Present` | components/src/display_terminal.rs:268-379 | No report changes nothing; otherwise the surface is rendered and what is flushed or published is exactly what changed, together with any frame not yet acknowledged. |
| `Presenting.Wiring.Publish` | components/src/display_terminal.rs:335-368 | The published rectangle is the union of the unacknowledged one and the new one, and the first one is the whole surface. |
| `Presenting.FirstFrame` | components/src/display_terminal.rs:284-293 | Painting everything once makes the surface the picture. |
| `Presenting.DamagedFrame` | components/src/display_terminal.rs:306-309 | Without a scroll, only the reported cells change, and the picture is complete exactly when the report was true. |
| `Presenting.ScrolledFrame` | components/src/display_terminal.rs:294-305 | With a scroll, the same, for the moved picture. |
| `Presenting.ScrollKeepsTheRest` | components/src/display_terminal.rs:294-305 | A scrolled frame changes no pixel outside the grid when the strips are blank. |
| `DamageEngine.ScrollKeepsPromiseIff` | crates/video_terminal/src/lib.rs:1660-1677 | A line feed at the bottom keeps the damage promise for every screen content if and only if the recorded box still covers itself one row up and covers the rows an earlier scroll exposed; both are fields readable before the call. |
| `DamageEngine.SafeScrollTracks` | crates/video_terminal/src/lib.rs:1328-1346 | Under that guard the box keeps covering every cell that differs from the moved picture. |
| `DamageEngine.StaleBoxBreaks` | crates/video_terminal/src/lib.rs:1660-1677 | Without the first half of the guard some screen content is misreported. |
| `DamageEngine.UnseenRowsBreak` | crates/video_terminal/src/lib.rs:1328-1346 | Without the second half some screen content is misreported. |
| `DamageEngine.FeedIsFaithful` | crates/video_terminal/src/lib.rs:1176-1197 | One operation, with the cursor's two cells dirtied after it, keeps the report true. |
| `DamageEngine.ScrollMoves` | crates/video_terminal/src/lib.rs:1328-1345 | A scroll moves every row up one and blanks the last in the current attributes. |
| `DamageEngine.LineFeedMoves` | crates/video_terminal/src/lib.rs:1328-1345 | A line feed goes down a row, or at the bottom scrolls; the column stays. |
| `DamageEngine.PrintWrites` | crates/video_terminal/src/lib.rs:1305-1325 | Printing changes the cell at the cursor and no other, and moves right or puts a wrap off. |
| `DamageEngine.WrapIsPutOff` | crates/video_terminal/src/lib.rs:1305-1311 | A wrap put off is a line feed from the first column before the next character. |
| `DamageEngine.OthersMean` | crates/video_terminal/src/lib.rs:1494-1530 | Erasing blanks exactly its cells, moving and renditions change no cell. |
| `DamageEngine.PrintFollows` | crates/video_terminal/src/lib.rs:1305-1325 | Printing, with its late wrap and scroll, records every cell it changes. |
| `DamageEngine.ScrollFollows` | crates/video_terminal/src/lib.rs:1328-1346 | A guarded scroll keeps both the cells and the drawn cursor block tracked. |
| `DamageEngine.SafeRunIsFaithful` | crates/video_terminal/src/lib.rs:1176-1197 | Any run of operations whose scrolls meet the guard keeps the bookkeeping true. |
| `DamageEngine.ReportIsTrue` | crates/video_terminal/src/lib.rs:1091-1120 | A report from a true state keeps its promise, no report means no change, and taking it starts the next interval true. |
| `DamageEngine.TakenOnce` | crates/video_terminal/src/lib.rs:1091-1120 | A report is given once: taken, there is nothing to say until something changes. |
| `DamageEngine.ScrollsIff` | crates/video_terminal/src/lib.rs:1328-1345 | The operations the guard asks about are exactly those that make a fresh report say the screen scrolled. |
| `DamageEngine.SafeRunReportsTruly` | crates/video_terminal/src/lib.rs:1091-1120 | After such a run the next report tells the truth about the whole grid and the cursor. |
| `DamageEngine.PromiseInPixels` | crates/video_terminal/src/lib.rs:1041-1065 | For a surface of any height, a promise kept per cell is kept per pixel if and only if the strip below the grid, which a scroll moves onto one cell row, looks like that row wherever the box does not cover it. |
| `DamageEngine.PixelSafeIff` | components/src/display_terminal.rs:294-305 | Over all frames and fonts: a report true in cells is true in pixels if and only if nothing scrolled, the height is whole cells, the box covers the whole row the strip moves onto, or no screen can make the report true. |
| `DamageEngine.StripBreaks` | components/src/display_terminal.rs:294-305 | Otherwise some screen, reported truly in cells, is shown wrongly. |
| `DamageEngine.SafeRunPresentsThePicture` | components/src/display_terminal.rs:268-309 | From terminal operations to surface memory, at any height: after a guarded run presenting leaves the engine's picture on every pixel exactly when the strip does no harm, which is certain when nothing scrolled, there is no strip, or the report covers the row. |
| `DamageEngine.DrawThenScrollMisreports` | crates/video_terminal/src/lib.rs:1660-1677 | A concrete screen: draw in the middle, feed a line, and the drawn cell has moved out of its box. |
| `DamageEngine.TwoLineFeedsMisreport` | crates/video_terminal/src/lib.rs:1328-1346 | A concrete screen: two line feeds over a blank bottom row leave a row of old text outside the report. |
| `DamageEngine.BottomStripMisreports` | components/src/display_terminal.rs:294-305 | A run of the engine, one line feed on a screen cleared in another background, whose report is true in cells and false in pixels on every surface with a strip. |
| `DamageEngine.ClearingRecovers` | crates/video_terminal/src/lib.rs:1176-1197 | Any run, safe or not, reports truly again once the screen is cleared; so safety of a whole run is sufficient, not necessary. |
| `ServerTree.HandlesAreFresh` | crates/filesystem_protocol/src/lib.rs:308-830 | A minting verb answers with a handle nobody holds, no other verb but CLOSE makes or frees one. |
| `TreeLaws.WriteThenRead` | crates/filesystem_protocol/src/lib.rs:352-355 | Bytes written at an offset are the bytes read back there. |
| `TreeLaws.ReadBrings` | crates/filesystem_protocol/src/lib.rs:350-352 | READ brings the file's bytes from the offset, as many as were asked for and there are, and leaves the rest of the page. |
| `TreeLaws.WritePuts` | crates/filesystem_protocol/src/lib.rs:353-355 | WRITE puts the page's bytes at the offset, zeros before them if the file was shorter, and moves no other byte. |
| `TreeLaws.TruncateLeaves` | crates/filesystem_protocol/src/lib.rs:372-382 | TRUNCATE leaves that many bytes: the old ones, and zeros past the old end. |
| `TreeLaws.CreateMakes` | crates/filesystem_protocol/src/lib.rs:361-371 | CREATE succeeds exactly for a valid free name under the right; the name is then a new empty file, and no other name or node moved. |
| `TreeLaws.MkdirMakes` | crates/filesystem_protocol/src/lib.rs:422-434 | MKDIR the same with an empty directory, under both rights and for rights the handle has. |
| `TreeLaws.RemoveTakes` | crates/filesystem_protocol/src/lib.rs:488-559 | UNLINK takes a file's name and RMDIR an empty directory's, exactly when it is there and the right is held; only the name goes. |
| `TreeLaws.RenameMoves` | crates/filesystem_protocol/src/lib.rs:435-487 | RENAME to another name succeeds exactly when rights, names and what stands in the place allow it; then the new name means what the old one did, the old one nothing, and no other name moved. |
| `TreeLaws.ReadDirLists` | crates/filesystem_protocol/src/lib.rs:408-421 | READDIR answers whole records from the entry asked for, in order, stopping only where the next would not fit. |
| `TreeLaws.SetThenGet` | crates/filesystem_protocol/src/lib.rs:560-587 | A successful SETXATTR is what GETXATTR then gets, kind and value, and no other attribute or node moved. |
| `TreeLaws.RemoveUnsets` | crates/filesystem_protocol/src/lib.rs:599-607 | REMOVEXATTR succeeds exactly on a set name, which then is not set; the others stay. |
| `TreeLaws.SetThenGetTime` | crates/filesystem_protocol/src/lib.rs:729-808 | A time set, now or given, is the time got. |
| `TreeLaws.RightsAreNeeded` | crates/filesystem_protocol/src/lib.rs:1306-1310 | A verb whose handle lacks a right it needs is refused and changes nothing. |
| `TreeLaws.RightsOnlyShrink` | crates/filesystem_protocol/src/lib.rs:322-434 | A minted handle has no right the one it came from lacked, down any path. |
| `TreeLaws.ServeReadsWhatItCarries` | crates/filesystem_protocol/src/lib.rs:1298-1322 | The words a verb's row says it carries are all the server reads of a request. |
| `TreeLaws.CarriedWords` | crates/filesystem_protocol/src/lib.rs:1298-1322 | Which verbs carry a length and which a second word. |
| `CaretakerRuns.FreshRunIsConfined` | components/src/fs_nameset_caretaker.rs:197-331 | From start-up, in every run: each request against the granted directory names, by the bytes the server reads, something whose first component is in the set; slot 0 is still the directory; each minted handle is in one slot or closed once. |
| `CaretakerRuns.EveryRunIsConfined` | components/src/fs_nameset_caretaker.rs:197-331 | The same from any state that satisfies it, over any stagings and requests. |
| `CaretakerRuns.EventKeepsInv` | components/src/fs_nameset_caretaker.rs:201-330 | One staging or one request keeps it. |
| `CaretakerRuns.EveryPlanIsConfined` | components/src/fs_nameset_caretaker.rs:213-313 | Whatever a client asks, what would be sent names a granted thing wherever it touches the granted directory, on both sides of a RENAME, and never lists or closes it. |
| `CaretakerRuns.CheckedIsDesignated` | components/src/fs_nameset_caretaker.rs:229-253 | The name the filter approved is the first component the server will resolve, and writing it back changes nothing. |
| `CaretakerRuns.FirstLenFinds` | components/src/fs_nameset_caretaker.rs:157-166 | The bounded scan ends at the first slash or at the end whenever the component is short enough to be granted. |
| `CaretakerRuns.SplitFirst` | components/src/fs_nameset_caretaker.rs:231-240 | A path's first component is what comes before its first slash. |
| `CaretakerRuns.StagingKeepsNames` | components/src/fs_nameset_caretaker.rs:283-297 | Writing both halves of a RENAME back leaves the page as the client staged it. |
| `CaretakerRuns.InstalledSettles` | components/src/fs_nameset_caretaker.rs:312-327 | A minted handle is installed once, or closed at once when no slot is free, and no other handle's books move. |
| `CaretakerRuns.ShutSettles` | components/src/fs_nameset_caretaker.rs:258-264 | Closing frees the slot and closes the server's handle exactly once. |
| `CaretakerRuns.ActSettles` | components/src/fs_nameset_caretaker.rs:258-328 | Whatever a request does, handles minted equal handles installed plus handles closed. |
| `Transparency.SentIsTheClients` | components/src/fs_nameset_caretaker.rs:201-311 | A permitted request goes upstream on its slot's handle, and the server's answer to it is its answer to the client's own request, every word. |
| `Transparency.AnsweredAsAsked` | components/src/fs_nameset_caretaker.rs:201-329 | A permitted request that makes no handle gets exactly the server's answer: both words, the page and the tree, and the table stays. |
| `Transparency.MintedIsSlotted` | components/src/fs_nameset_caretaker.rs:312-329 | A minted handle is in a slot after 0 that was empty and now holds just that handle, and the reply is that slot; or none was free and it was closed again at once. |
| `Transparency.CloseIsPassedOn` | components/src/fs_nameset_caretaker.rs:254-264 | CLOSE of a slot empties it and closes its handle upstream, and nothing else. |
| `Transparency.BadRequestsAreRefused` | components/src/fs_nameset_caretaker.rs:201-264 | An empty slot is a bad handle; an unknown verb and a close of the directory are invalid; nothing is sent. |
| `Transparency.OtherNamesDoNotExist` | components/src/fs_nameset_caretaker.rs:229-253 | A name outside the set does not exist, whatever the server has under it, and nothing is sent. |
| `Transparency.OtherNamesAreNotRenamed` | components/src/fs_nameset_caretaker.rs:283-297 | The same for either name of a RENAME where it stands on the directory. |
| `Transparency.ListingIsTheSet` | components/src/fs_nameset_caretaker.rs:338-352 | READDIR of the granted directory is the records of the set from the cursor, as many as fit, and the server is not asked. |
| `Transparency.OpenThenRead` | components/src/fs_nameset_caretaker.rs:201-329 | A granted file opened, then read on the number the client was given: OPEN told its size and READ brings its bytes at the client's offset. |
| `Transparency.ReadThroughASlot` | components/src/fs_nameset_caretaker.rs:298-329 | READ on a slot brings the file's bytes at the client's own offset. |
| `NamesetProxy.Proxy.constructor` | components/src/fs_nameset_caretaker.rs:197-199 | Slot 0 holds the granted directory and nothing else is held. |
| `NamesetProxy.Proxy.PutBytes` | components/src/fs_nameset_caretaker.rs:112-119 | The page is the old one with the bytes laid over it, stopping at its end. |
| `NamesetProxy.Proxy.FirstComponent` | components/src/fs_nameset_caretaker.rs:157-166 | The loop computes the scan the filter's claims are about. |
| `NamesetProxy.Proxy.ReadName` | components/src/fs_nameset_caretaker.rs:173-179 | A name too long to be granted reads as none, never as a prefix. |
| `NamesetProxy.Proxy.Install` | components/src/fs_nameset_caretaker.rs:147-151 | The first free slot after slot 0 takes the handle, or none does. |
| `NamesetProxy.Proxy.Contains` | crates/filesystem_protocol/src/lib.rs:2040-2042 | The search answers membership in the set. |
| `NamesetProxy.Proxy.Filter` | components/src/fs_nameset_caretaker.rs:229-253 | One question, one write-back: approved exactly when the checked name is in the set. |
| `NamesetProxy.Proxy.FilterRename` | components/src/fs_nameset_caretaker.rs:284-297 | Both names are asked about exactly where they touch the granted directory. |
| `NamesetProxy.Proxy.Rename` | components/src/fs_nameset_caretaker.rs:275-305 | A RENAME is refused, or sent with both handles translated. |
| `NamesetProxy.Proxy.Relay` | components/src/fs_nameset_caretaker.rs:306-328 | A relayed verb is answered as the server answers it, except that a minted handle becomes a slot number: a successful reply is a slot after 0 that was empty and now holds exactly the handle the trace says was minted, and no other slot moved. |
| `NamesetProxy.Proxy.List` | components/src/fs_nameset_caretaker.rs:338-352 | The listing of the granted directory is the set from the cursor, in whole records that fit the page. |
| `NamesetProxy.Proxy.CallServer` | components/src/fs_nameset_caretaker.rs:129-131 | A forwarded request reaches the server with the page as it stands, and is on the trace. |
| `NamesetProxy.Proxy.ServeOne` | components/src/fs_nameset_caretaker.rs:201-329 | One turn of the loop, on the table and page in place: the reply, table, page, tree and trace are those of the request function whose answers `Transparency` states in the client's terms. |
| `NamesetProxy.Proxy.ServeAll` | components/src/fs_nameset_caretaker.rs:197-331 | The loop over any history of stagings and requests is that run. |
| `Confinement.OutsideIsInvisible` | components/src/fs_nameset_caretaker.rs:197-331 | Two trees alike in the granted names and everything below them, with nodes and handles numbered in any way, and alike in what the grant shows of the world: every sequence of requests gets identical replies and pages. |
| `Confinement.RespondAgrees` | components/src/fs_nameset_caretaker.rs:201-329 | One request gets the same reply from both, and the trees and the two handle tables still stand for each other. |
| `Confinement.ServeAgrees` | crates/filesystem_protocol/src/lib.rs:308-830 | Any confined request, verb by verb, is answered alike and leaves alike trees; a handle it mints, whatever its number, is on nodes that stand for each other. |
| `Confinement.SameWalk` | crates/filesystem_protocol/src/lib.rs:322-349 | Strictly downward resolution from an agreed place arrives at nodes that stand for each other, with the same rights. |
| `Confinement.OpenAgrees` | crates/filesystem_protocol/src/lib.rs:322-349 | OPEN along a relative path sees nothing outside. |
| `Confinement.OpenDirAgrees` | crates/filesystem_protocol/src/lib.rs:384-407 | Neither does OPENDIR. |
| `Confinement.CreateAgrees` | crates/filesystem_protocol/src/lib.rs:361-371 | CREATE makes a node in each tree, numbered independently, and the two join as a pair. |
| `Confinement.MkdirAgrees` | crates/filesystem_protocol/src/lib.rs:423-434 | So does MKDIR. |
| `Confinement.RemoveAgrees` | crates/filesystem_protocol/src/lib.rs:489-559 | UNLINK and RMDIR succeed or fail alike and remove only a granted name. |
| `Confinement.RenameAgrees` | crates/filesystem_protocol/src/lib.rs:436-487 | RENAME, within and between directories, replaces only granted names. |
| `Confinement.ReadDirAgrees` | crates/filesystem_protocol/src/lib.rs:409-421 | A listing below a granted name shows only shared things. |
| `Confinement.TimeAgrees` | crates/filesystem_protocol/src/lib.rs:730-808 | The three time verbs read and write only below granted names. |
| `Confinement.SetAttrAgrees` | crates/filesystem_protocol/src/lib.rs:573-587 | SETXATTR is refused or done alike, on the granted directory too, where a writer sees no more than which names are taken. |
| `Visibility.IndistinguishableIff` | components/src/fs_nameset_caretaker.rs:197-331 | Two trees alike in the granted names and everything below them give every run the same replies, if and only if what the grant's rights show of the outside is the same: the volume's numbers; to a writer the flush count and the names of the granted directory's attributes; to a reader those attributes; and the clock to whoever can set and read a stamp. |
| `Visibility.AlikeIsEnough` | components/src/fs_nameset_caretaker.rs:197-331 | Nothing else shows: not other names, other nodes, other handles, numbering, or the granted directory's own time stamp. |
| `Visibility.SpaceLeaks` | crates/filesystem_protocol/src/lib.rs:632-652 | A run of one STATFS shows the volume's size and free space. |
| `Visibility.AttributesLeak` | crates/filesystem_protocol/src/lib.rs:588-598 | A run of one LISTXATTR shows the granted directory's own attribute names. |
| `Visibility.SyncsLeak` | crates/filesystem_protocol/src/lib.rs:713-717 | A run of one SYNC shows how often anyone has synced the device. |
| `Visibility.ClockReads` | crates/filesystem_protocol/src/lib.rs:730-808 | A run that stamps a granted name and asks for its time shows the clock. |
| `Visibility.AttrsShow` | crates/filesystem_protocol/src/lib.rs:561-598 | To a reader, indistinguishable trees have the same attributes on the granted directory, kinds, values and order. |
| `Visibility.AttrNamesShow` | crates/filesystem_protocol/src/lib.rs:599-607 | To a writer, the same attribute names, learnt by removing them. |
| `Visibility.ListingTells` | crates/filesystem_protocol/src/lib.rs:2261-2317 | An attribute listing determines the names and their order. |
| `FileCaretaker.OnlyTheGrantedHandle` | components/src/fs_file_caretaker.rs:133-211 | In every run, whatever other clients do to the server, only the granted handle is sent upstream, never to close it, mint from it or name through it. |
| `FileCaretaker.OpenAndClose` | components/src/fs_file_caretaker.rs:158-185 | OPEN of the granted name is handle 0 and no other name exists; CLOSE is good on that handle alone. |
| `FileCaretaker.AnsweredAsAsked` | components/src/fs_file_caretaker.rs:133-215 | A file's verb on handle 0 within the grant's direction gets the server's own answer to the client's own request. |
| `FileCaretaker.RefusedHere` | components/src/fs_file_caretaker.rs:133-215 | Another handle, a change without the direction, a directory's verb and no verb are each refused here. |
| `FileCaretaker.ChangingMutates` | crates/filesystem_protocol/src/lib.rs:1331-1338 | The verbs a read-only grant refuses are just those that change a file. |
| `FileCaretaker.ReadOnlyChangesNothing` | components/src/fs_file_caretaker.rs:133-211 | Under a read-only grant no sequence of requests changes anything: the server is exactly what its other clients left. |
| `FileCaretaker.RequestsStayOnTheFile` | components/src/fs_file_caretaker.rs:133-211 | With the write direction requests change no node but the granted file's and move no handle. |
| `FileCaretaker.ReadOnlyIsPure` | crates/filesystem_protocol/src/lib.rs:1331-1338 | A forwarded verb that does not mutate leaves the server unchanged, whatever handle and page. |
| `FileCaretaker.ForwardedStaysOnTheFile` | crates/filesystem_protocol/src/lib.rs:1622-1675 | A forwarded verb reaches only the node behind its handle. |
| `FileCaretaker.OpeningNamesTheFile` | components/src/fs_file_caretaker.rs:223-231 | The handle opened at start-up stands on the file that name was in the granted directory. |
| `FileCaretaker.Caretaker.constructor` | components/src/fs_file_caretaker.rs:133-137 | Serving starts with nothing sent. |
| `FileCaretaker.Caretaker.NameMatches` | components/src/fs_file_caretaker.rs:168-177 | The comparison is equality with the granted name, length included. |
| `FileCaretaker.Caretaker.ServeOne` | components/src/fs_file_caretaker.rs:137-211 | One turn of the loop is one step of the run the theorems are about. |
| `FileCaretaker.Put` | components/src/fs_file_caretaker.rs:83-87 | The name is copied to the start of the page and the rest of it left. |
| `FileCaretaker.Start` | components/src/fs_file_caretaker.rs:215-231 | There is a caretaker exactly when the open succeeded, with a handle that was new. |
| `Blocks.WriteAt` | components/src/disk_partitioner.rs:405-430 | At any logical block with data of any length: success leaves exactly the old disk with the range spliced in, and comes exactly when every block touched is on the disk and the device fails none of the two calls each takes; a failure part-way has changed nothing outside the range and put nothing but the data inside it. |
| `Blocks.WriteBlock` | components/src/disk_partitioner.rs:407-427 | One block read, patched and written back is one piece of the splice, exactly when both calls work and the block is on the disk; otherwise at most a torn piece of it. |
| `Blocks.Patch` | components/src/disk_partitioner.rs:415-422 | Only the patched bytes of the page change. |
| `Blocks.PatchedBlock` | components/src/disk_partitioner.rs:409-427 | Replacing a block by its patched self is laying the patch over the disk. |
| `Blocks.TornWithin` | components/src/disk_partitioner.rs:424-426 | However a block write tears, only bytes of the patch can appear, and only in its range. |
| `Blocks.Service.Read` | crates/filesystem_protocol/src/lib.rs:194-200 | The block service's read: the block lands in the page, or the call fails. |
| `Blocks.Service.Write` | crates/filesystem_protocol/src/lib.rs:201-203 | The block service's write: the page replaces the block, or any part of it does. |
| `Blocks.CoveringIsTight` | crates/globally_unique_identifier_partition_table/src/span.rs:53-74 | A span contains the wanted range at its offset, and one block fewer would not. |
| `Blocks.SpanRecovers` | crates/globally_unique_identifier_partition_table/src/span.rs:53-74 | What a span read brings in, cut at the offset, is the wanted range of the disk. |
| `Blocks.ReadSpan` | components/src/disk_partitioner.rs:443-463 | The buffer takes the span's blocks in order, exactly when the span fits the buffer and the disk and no call fails. |
| `Blocks.ReadAt` | components/src/disk_partitioner.rs:434-439 | An aligned read of whole blocks fills the buffer with the disk's bytes, exactly when they are on the disk and no call fails; anything else it refuses. |
| `Partitioner.Partition` | components/src/disk_partitioner.rs:200-285 | The verdict, as a function of what is known before the run: no full draws, a size not in logical blocks, a table that does not fit, or a disk not in whole transfer blocks or a failing call among the 26. A refusal leaves the disk untouched and uncalled, any outcome spares every byte outside the two copies, and success is the five regions over the old disk. |
| `Partitioner.WriteTables` | components/src/disk_partitioner.rs:253-281 | All five writes succeed, and lay the five regions, exactly when the disk is whole transfer blocks and none of the 26 calls fails; otherwise only table bytes were touched. |
| `Partitioner.DrawGuids` | components/src/disk_partitioner.rs:203-210 | Four GUIDs exactly when all eight words came full, each stamped from its own two words. |
| `Partitioner.Stamped` | crates/globally_unique_identifier_partition_table/src/guid.rs:81-85 | Version and variant bits where a reader looks, the other 122 bits the caller's. |
| `Partitioner.StepsApart` | components/src/disk_partitioner.rs:253-259 | For every disk size the five regions are on the disk and no two overlap. |
| `Partitioner.FiveWritesHold` | components/src/disk_partitioner.rs:253-281 | So after the writes each region holds its own bytes. |
| `Partitioner.SparedByStep` | components/src/disk_partitioner.rs:253-281 | A write within a region, torn or not, spares everything outside the tables. |
| `Partitioner.ReadTables` | components/src/disk_partitioner.rs:288-338 | For any disk and whatever its header claims: which of nothing, the MBR, the primary table or both copies comes back is decided by the size, the claim and the calls, nothing readable is withheld, no slice leaves its buffer, and each piece is the disk's bytes at its place. |
| `Partitioner.ReadBackup` | components/src/disk_partitioner.rs:319-338 | The backup is found exactly when its claimed start leaves a block for the header, the six-block buffer reaches back to it, the disk is whole transfer blocks and no call fails; then its array and header are cut from the right places. |
| `Partitioner.PartitionThenVerify` | components/src/disk_partitioner.rs:200-338 | The round trip: after the five writes the read-back gives the MBR, header, array and both parts of the backup that were written, exactly when none of its ten calls fails; a failure in the first five leaves nothing and one in the last five costs only the backup. |
| `Partitioner.BackupIsFiveBlocks` | components/src/disk_partitioner.rs:180-182 | Wherever the disk's size puts it, the backup is five transfer blocks, so the six-block buffer always reaches it. |
| `Partitioner.StepCost` | components/src/disk_partitioner.rs:253-281 | What each write costs in calls on a disk of whole transfer blocks; on any other the last one is not on the disk. |
| `Partitioner.PartitionAndVerify` | components/src/disk_partitioner.rs:191-338 | Both roles in turn on one disk: a run that partitioned, read back with no failing call among ten, gives the image built from the drawn GUIDs. |
| `Partitioner.GuidBytes` | components/src/disk_partitioner.rs:383-403 | The sixteen bytes of a drawn GUID, one by one: the first draw's eight and the second's, but for the stamped bits. |
| `Partitioner.PartitionedIff` | components/src/disk_partitioner.rs:200-285 | A run partitions exactly when each of eight draws is a whole word, the disk is at least 68 logical blocks in whole transfer blocks, the table can be built, and none of 26 calls fails. |
| `Broker.BrokerIsFifo` | components/src/broker.rs:98-170 | Over every run deliveries followed by the queue are the accepted items in arrival order; up means an empty queue; buffered equals drained plus queued. |
| `Broker.ExactlyOnceInOrder` | components/src/broker.rs:112-170 | The same from any state, with a QUEUE_FULL item in neither. |
| `Broker.WakeKeeps` | components/src/broker.rs:112-170 | One wakeup adds to deliveries and queue exactly what its reply said was taken, and passes through only with an empty queue. |
| `Broker.ExitIsFinal` | components/src/broker.rs:160-165 | After QUIESCE nothing more is delivered or taken. |
| `Broker.WindowPush` | components/src/broker.rs:77-84 | Writing one slot past the end of the ring appends to its contents. |
| `Broker.WindowPop` | components/src/broker.rs:86-94 | Reading the head slot takes the oldest item, across the wrap. |
| `Broker.Queue.constructor` | components/src/broker.rs:99-103 | A new queue is empty. |
| `Broker.Queue.Push` | components/src/broker.rs:77-84 | An item is appended unless 128 are held. |
| `Broker.Queue.Pop` | components/src/broker.rs:86-94 | The oldest item leaves and the rest stay in order. |
| `Broker.Loop.constructor` | components/src/broker.rs:98-110 | Starts up, with nothing buffered. |
| `Broker.Loop.Drain` | components/src/broker.rs:121-131 | The whole backlog reaches the backend in arrival order, and the count reported is its length. |
| `Broker.Loop.Wakeup` | components/src/broker.rs:112-170 | One turn on the ring in place: afterwards the broker is up exactly when it is not wanted down, coming up empties the queue to the backend oldest first, and state and reply are one step of the run the theorems are about. |
| `Broker.WakeFollowsThePage` | components/src/broker.rs:112-131 | After any wakeup a broker that has not exited is up exactly when it is not wanted down. Up, its queue is empty and what it held went to the backend, oldest first and before this wakeup's item; down, it gave the backend nothing. |
| `Broker.ComingUpDelivers` | components/src/broker.rs:112-131 | Whatever run went before, once a wakeup finds the backend wanted every item ever taken has been delivered in order and nothing waits. |
| `Broker.PutIsAnswered` | components/src/broker.rs:143-159 | A PUT gets the backend's own answer when up; when down the new count while fewer than 128 are held, and full after that. |
| `Broker.QuiesceIsAnswered` | components/src/broker.rs:160-170 | QUIESCE is told how many were ever buffered and ends the run; nothing else ends it. |
| `Broker.BufferedCounts` | components/src/broker.rs:150-165 | The number it is told is the number of items accepted into the queue over the run. |
| `Entropy.ServedConserves` | components/src/entropy.rs:273-395 | Over every history, refusals included, the bytes served followed by the bytes held are exactly what the requests brought: none lost, repeated or padded. |
| `Entropy.ClientGetsNoMore` | components/src/entropy.rs:375-395 | A client never gets more bytes than it asked for nor more than a word holds, and fewer only from a dry device. |
| `Entropy.TookConserves` | components/src/entropy.rs:375-395 | The same for one client, and a short count happens only after four requests in a row brought nothing. |
| `Entropy.RefilledStreams` | components/src/entropy.rs:352-362 | A refill holds the first fill that brought something, or four empty ones went by. |
| `Entropy.WordRoundTrip` | crates/entropy_protocol/src/lib.rs:261-265 | A client unpacking the reply word gets the bytes packed into it. |
| `Entropy.SlotAligned` | components/src/entropy.rs:290-330 | A 16-bit index finds the slot of the true count across every wrap. |
| `Entropy.IndexMoves` | components/src/entropy.rs:322-330 | A completion always changes the index the driver compares. |
| `Entropy.Pool.constructor` | components/src/entropy.rs:271-285 | Nothing held, nothing outstanding. |
| `Entropy.Pool.Complete` | components/src/entropy.rs:290-330 | The device serves every published request into the one buffer, each over the last, with its length in its slot. |
| `Entropy.Pool.Notify` | components/src/entropy.rs:298-302 | A notification is refused, or taken up now or within the wait. |
| `Entropy.Pool.IrqWait` | components/src/entropy.rs:331-332 | A wakeup may or may not be the completion. |
| `Entropy.Pool.Request` | components/src/entropy.rs:290-340 | One request, refused or not: what it leaves of the rings, the buffer and the counts is the step function the theorems are about, a refused request staying published. |
| `Entropy.Pool.Refill` | components/src/entropy.rs:352-362 | The loop is the refill the conservation law is about, whatever was refused. |
| `Entropy.Pool.Hand` | components/src/entropy.rs:382-391 | Handing out bytes builds the little-endian word and leaves zeros where they were. |
| `Entropy.Pool.Next` | components/src/entropy.rs:377-393 | One run of bytes, or nothing because four requests brought nothing. |
| `Entropy.Pool.Take` | components/src/entropy.rs:375-395 | In every run a client gets exactly what the conservation law says, as a count and a word; while nothing was refused, bytes behind the cursor are zero. |
| `Entropy.ZeroingLeaves` | components/src/entropy.rs:384-390 | Zeroing behind the cursor keeps every unserved byte. |
| `Entropy.AlignedIffNeverRefused` | components/src/entropy.rs:292-302 | For the driver's own counters after any number of requests: both sides agree on which completion is whose if and only if no notification was refused. |
| `Entropy.RefusalLosesBytes` | components/src/entropy.rs:292-302 | A refusal and then an acceptance, however late: the driver takes the second fill for the first, and two of four bytes the device wrote are gone. |
| `Entropy.RefusalReachesTheClient` | components/src/entropy.rs:292-395 | So a first client that asks for two bytes is served the device's third and fourth. |
| `Entropy.ConservesIff` | components/src/entropy.rs:288-340 | Over every way the kernel answers and however late completions come: what the requests bring is what the device wrote, for every device, if and only if no request is accepted after one that was refused. |
| `Entropy.MarkedIsLost` | components/src/entropy.rs:288-340 | An acceptance after a refusal loses what the device wrote for the first refused request, for good. |
| `Entropy.ServedIsTheDevices` | components/src/entropy.rs:273-395 | End to end, with none accepted after a refusal: the bytes handed to clients and the bytes still held are what the device wrote. |
| `Entropy.BooksLag` | components/src/entropy.rs:292-330 | The driver is behind by at least the refusals, and by exactly them until there are 65535 and the 16-bit index hides a wrap. |
| `Entropy.CalmBrings` | components/src/entropy.rs:288-340 | With nothing refused, each request brings exactly the device's next fill. |
| `Entropy.Pool.Await` | components/src/entropy.rs:320-339 | The wait loop takes the first completion it sees, if one comes within 64 wakeups. |
| `Console.ScreenNeverDisagrees` | components/src/console.rs:184-277 | With batching on or off and the timer refusing whenever it likes, at every wait point the UART carried exactly what was said, equal to what the terminal was handed followed by what is staged; staging is under a page and has a deadline armed. |
| `Console.AfterKeeps` | components/src/console.rs:194-277 | One turn of the loop keeps the wire and the screen in agreement. |
| `Console.WroteKeeps` | components/src/console.rs:255-270 | Each half of a client's write, with the kernel lines after it, keeps it. |
| `Console.EmittedAllKeeps` | components/src/console.rs:216-230 | Kernel lines of any length and number keep it. |
| `Console.EmittedKeeps` | components/src/console.rs:293-305 | So do bytes of any length, a page at a time. |
| `Console.StagedKeeps` | components/src/console.rs:321-366 | Staging loses no byte and leaves nothing staged without a deadline, whether or not the timer answers. |
| `Console.Cut` | components/src/console.rs:248-254 | The split is right after the last newline, with none after it. |
| `Console.FindCut` | components/src/console.rs:251-254 | The backward scan finds that split. |
| `Console.Server.constructor` | components/src/console.rs:184-193 | Nothing said, nothing staged. |
| `Console.Server.PaintScreen` | components/src/console.rs:374-395 | Everything staged is handed over and the deadline is off. |
| `Console.Server.CopyOut` | components/src/console.rs:328-339 | Bytes go into the out page behind what is staged. |
| `Console.Server.TakeScreen` | components/src/console.rs:321-366 | The batcher in place does what staging means. |
| `Console.Server.Emit` | components/src/console.rs:293-305 | The wire and the screen get the same bytes. |
| `Console.Server.EmitAll` | components/src/console.rs:216-230 | A series of kernel chunks, in order. |
| `Console.Server.WritePart` | components/src/console.rs:255-270 | One half of a write, then the lines that waited for it. |
| `Console.Server.Turn` | components/src/console.rs:194-277 | One turn is one step of the history; a deadline leaves nothing staged, everything handed to the terminal and no timer on; and the acknowledged count is what was printed. |
| `Console.DeadlinePaints` | components/src/console.rs:194-208 | A deadline hands the terminal everything said so far and is then off; the wire hears nothing. |
| `Console.DeadlineCatchesUp` | components/src/console.rs:194-208 | So any run that ends with a deadline has put all that was ever said on the screen. |
| `Console.StagedWhen` | components/src/console.rs:321-366 | A write waits exactly when batching is on, a deadline is on or granted, and the page is short of full; otherwise all is painted at once. A refused timer turns batching off. |
| `Console.UnbatchedNeverWaits` | components/src/console.rs:341-347 | Without batching nothing ever waits. |
| `Console.WriteSaysItsBytes` | components/src/console.rs:212-282 | A write says its bytes up to a page in two parts cut after their last newline, with kernel lines only at the cut and at the end. |
| `Ratchet.NothingEverGetsWorse` | helpers/prose_ratchet.py:851-975 | Along any history of passing changes no unexcused measure over its limit is ever above the value first recorded for its document, under whatever name it then had. |
| `Ratchet.PassesIff` | helpers/prose_ratchet.py:851-975 | A tree passes if and only if every appendix is linked; every row is tracked and, unless this change measures it anew, comes from a base row with no number risen; every document is well marked, within its grant, and under each limit, excused, or held down by its ceiling and by what it was; and one whose prose was touched is within the bold limit outright. |
| `Ratchet.ChangedNeverRises` | helpers/prose_ratchet.py:947-970 | A passing change never raises a held measure of a document it changed. |
| `Ratchet.DocumentOkIff` | helpers/prose_ratchet.py:925-975 | The same document by document, against limits written out as numbers. |
| `Ratchet.RowOkIff` | helpers/prose_ratchet.py:858-889 | The same row by row, the re-measured roadmap rows excepted. |
| `Ratchet.OnlyTouchedBoldEscapes` | helpers/prose_ratchet.py:940-946 | A held measure escapes its ceiling only if it is a bold count of a touched, too bold document. |
| `Ratchet.HistoryLowers` | helpers/prose_ratchet.py:858-889 | Every row can be followed back through renames to the first tree, or to where it was first recorded or measured anew, and its numbers only went down on the way. |
| `Ratchet.PassingLowers` | helpers/prose_ratchet.py:872-885 | Against its base, every row of a passing tree that is not re-measured comes from a row there, its own or its renamed document's, and none of its numbers rose. |
| `Ratchet.OwnOrigin` | helpers/prose_ratchet.py:858-885 | Without renames and re-measurement every row is one of the first tree's, under its own path. |
| `Ratchet.PassingHolds` | helpers/prose_ratchet.py:915-971 | In a passing tree everything unexcused and over has a ceiling and is at or under it. |
| `Ratchet.BankIsIdempotent` | helpers/prose_ratchet.py:1010-1033 | Banking twice is banking once. |
| `Ratchet.BankPreservesPassing` | helpers/prose_ratchet.py:1010-1033 | Banking a passing tree leaves it passing against the same base. |
| `Ratchet.BankedCeiling` | helpers/prose_ratchet.py:1010-1033 | A banked ceiling is kept exactly for what is still over and unexcused, at the lesser of the two numbers. |
| `Ratchet.BoldExcessIsLeast` | helpers/prose_ratchet.py:689-699 | The excess is the least removal that meets the density limit: fewer is still too bold, as many is not. |
| `Ratchet.Check` | helpers/prose_ratchet.py:851-975 | The reported problems are exactly those the tree has, so none means it passes. |
| `Ratchet.CheckRow` | helpers/prose_ratchet.py:872-885 | One baseline row: exactly its added-row or raised-number problems, against its own prior row or its renamed document's, and none for a re-measured roadmap row. |
| `Ratchet.CheckDoc` | helpers/prose_ratchet.py:915-971 | One document: exactly its marker, grant, touched-bold and ceiling problems. |
| `Ratchet.CheckMeasure` | helpers/prose_ratchet.py:947-971 | One measure: the one error that decides it. |
| `Ratchet.Bank` | helpers/prose_ratchet.py:1010-1033 | The loop writes the banked baseline. |
| `Ratchet.BankRow` | helpers/prose_ratchet.py:1025-1031 | The inner loop writes the kept row. |
| `Packages.Evaluate` | helpers/packages.py:293-458 | No error is reported if and only if membership, claims, links, dependencies and subtree-grants notes are all in order. A link is reported if and only if it crosses packages without an interface, a declared dependency or an exception for it; an exception is reported if and only if no crossing link it names lacks both of the others. Without errors every crate and program name has one package, every path its longest claim, and a package declares subtree grants exactly when one of its crates carries the note. |
| `Packages.EveryCrateHasOnePackage` | helpers/packages.py:312-332 | In a tree without errors every crate is listed by exactly one package. |
| `Packages.EveryProgramHasOnePackage` | helpers/packages.py:322-341 | Every program name is in exactly one package: the only one that lists it, or that of the first crate read that has one. |
| `Packages.OwnPackageIff` | helpers/packages.py:322-341 | An unlisted program is in its own crate's package if and only if that is also the package of the first crate read with a program of its name. |
| `Packages.SharedNameMisplaces` | helpers/packages.py:322-341 | Two crates with a program of one name: the second crate's is put in the first crate's package, and nothing is reported. |
| `Packages.GrantsMatchNotes` | helpers/packages.py:441-458 | In a tree without errors a package declares subtree grants exactly when one of its crates carries the note and links the scope crate. |
| `Packages.EveryPathHasItsLongestClaim` | helpers/packages.py:343-387 | Every tracked path is owned by its longest claiming prefix, and no prefix is claimed twice. |
| `Packages.ClaimsAre` | helpers/packages.py:343-365 | The claims are exactly what some package names, for that package, and the homes outside every package. |
| `Packages.SourceIsTheLast` | helpers/packages.py:322-341 | A program's source is that of the last crate read with one of its name. |
| `Packages.EveryCrossLinkIsAllowed` | helpers/packages.py:389-418 | Every link to another package's crate is to an interface, under a declared dependency, or excused. |
| `Packages.WholeCrateLinks` | helpers/packages.py:390-402 | A crate all of whose programs are in its own package makes its links as one member, and its programs none. |
| `Packages.SplitCrateLinks` | helpers/packages.py:390-402 | A crate with a program elsewhere makes none itself; each of its programs links what its source mentions. |
| `Packages.NoChainReachesATest` | helpers/packages.py:424-432 | No chain of declared dependencies of any length leads from a package that is not a test to one that is. |
| `Packages.PrefixesAreTheClaims` | helpers/packages.py:472-476 | Split and joined back, the generated prefixes are exactly the path and the directories above it. |
| `Packages.JoinIsPrefix` | helpers/packages.py:472-476 | The i-th generated prefix is the path up to and including its i-th slash. |
| `Packages.PrefixesGrow` | helpers/packages.py:472-476 | They come shortest first. |
| `Packages.OwnerOf` | helpers/packages.py:367-372 | The last claimed prefix is the longest one, and there is none exactly when nothing claims the path. |
| `Packages.Place` | helpers/packages.py:312-330 | An owner for every known listed item; an error exactly when something is unknown or listed twice. |
| `Packages.DistinctMeansOne` | helpers/packages.py:312-330 | Without a repeated listing, the recorded owner is the only package that lists the item. |
| `Packages.PlacePrograms` | helpers/packages.py:333-341 | Programs follow their crate, in reading order, unless its programs are scattered, and an unplaced one is then an error. |
| `Packages.StrandedIff` | helpers/packages.py:333-341 | Where no two crates share a program name, a program is left without a package exactly in a crate some of whose programs another package lists while nobody lists another of them. |
| `Packages.Unplaced` | helpers/packages.py:331-332 | An error exactly when some crate is in no package. |
| `Packages.GatherClaims` | helpers/packages.py:344-365 | Each prefix keeps a claim that was made, and an error exactly when one is claimed twice. |
| `Packages.CheckHomes` | helpers/packages.py:374-387 | An error exactly when a path has no claim or a claim wins no path. |
| `Packages.OwnPaths` | helpers/packages.py:374-381 | Each claimed path is owned by its longest claim. |
| `Packages.GatherEdges` | helpers/packages.py:390-402 | The edges are exactly the links members make, program by program where a crate is split. |
| `Packages.CheckLinks` | helpers/packages.py:403-418 | A violation for exactly the crossing links with no interface, dependency or exception; the exceptions used are exactly the first to name a crossing link with no interface and no dependency. |
| `Packages.CheckExcuses` | helpers/packages.py:420-423 | An error exactly when an exception excuses nothing. |
| `Packages.CheckDepend` | helpers/packages.py:425-432 | An error exactly when the dependency is no package or of a kind this one may not depend on. |
| `Packages.CheckKinds` | helpers/packages.py:424-432 | An error exactly when some declared dependency is refused. |
| `Packages.KindsOkIff` | helpers/packages.py:424-432 | For each kind, exactly which kinds a package of it may depend on. |
| `Packages.CheckPackages` | helpers/packages.py:419-432 | An error exactly when some package has an idle exception or a refused dependency. |
| `Packages.CheckNotes` | helpers/packages.py:441-458 | An error exactly when a note has no scope crate or no declaration, or a declaration no note. |
| `Orphans.OneModeMeansExact` | helpers/orphan_rust.py:211-263 | When no file is declared in both modes, the report is exactly the scoped files no declaration chain reaches. |
| `Orphans.WalkIsExact` | helpers/orphan_rust.py:211-263 | The same under the weaker condition that no file reached in both modes declares differently in them. |
| `Orphans.MarkedIff` | helpers/orphan_rust.py:227-258 | Exactly what the walk marks: the files some chain reaches without needing another file's declarations in the mode the walk skipped; so a declared file is reported if and only if every chain to it does. |
| `Orphans.OneOfTwoIsMissed` | helpers/orphan_rust.py:227-258 | Whatever order the declarations come in, a file that is the only way to one file in one mode and to another in the other costs the walk at least one of them. |
| `Orphans.WalkIsSound` | helpers/orphan_rust.py:227-258 | Every file marked has a declaration chain from a build-target root, whatever cycles there are. |
| `Orphans.WalkedProgress` | helpers/orphan_rust.py:227-258 | At the end nothing a file declared, in the mode it was gone through, has been dropped. |
| `Orphans.ChainSeen` | helpers/orphan_rust.py:227-258 | A chain that needs no file in its skipped mode is marked, link by link. |
| `Orphans.FindOrphans` | helpers/orphan_rust.py:227-263 | The worklist ends on every graph and reports the scoped files it did not mark. |
| `Orphans.MissedBySkipping` | helpers/orphan_rust.py:232-235 | A file declared in both modes hides whatever only its second mode declares. |
| `Orphans.TwoWaysIsMissed` | helpers/orphan_rust.py:231-258 | A concrete tree, `src/a.rs` declared by name and by path: the walk goes through it by path alone and reports `src/a/b.rs`, which its module form declares. |
| `Orphans.TreesAreGraphs` | helpers/orphan_rust.py:237-258 | Resolving declarations never leaves the tracked files. |
| `Orphans.AtPlain` | helpers/orphan_rust.py:237-258 | Plain names behind a plain directory resolve to just that path. |
| `Orphans.StemOf` | helpers/orphan_rust.py:238 | Only the last extension goes from a file's name. |
| `Orphans.IncludeIn` | helpers/orphan_rust.py:239-244 | An include is the Rust file named, from the file's own directory and whatever modules enclose it; any other file is no source. |
| `Orphans.ModuleIn` | helpers/orphan_rust.py:252-258 | A module is a file or a directory's mod.rs, from the declaring file's own module directory. |
| `Orphans.PathIn` | helpers/orphan_rust.py:245-251 | A path attribute is that file, from the file's directory, or the module's inside an inline module. |
| `Orphans.UpOne` | helpers/orphan_rust.py:237-258 | A step up from a plain directory is its parent. |
| `Orphans.TargetsHave` | helpers/orphan_rust.py:239-258 | What a file leads to is each candidate of each declaration that the tree has. |
| `Frontmatter.RoundTripIff` | helpers/roadmap_block.py:77-127 | Written fields come back unchanged and without a problem if and only if every value is trimmed, not empty, on one line and free of ": " and " #". |
| `Frontmatter.BodyRoundTrip` | helpers/roadmap_block.py:111-115 | The body comes back without its leading blank lines, so unchanged exactly when it has none. |
| `Frontmatter.ReprintIff` | helpers/roadmap_block.py:77-127 | Cleanly read frontmatter prints and reads back the same if and only if no value is empty. |
| `Frontmatter.BlankValueIsLost` | helpers/roadmap_block.py:92-110 | For any key a value of nothing but spaces reads cleanly and does not survive printing. |
| `Frontmatter.BlankStatusIsLost` | helpers/roadmap_block.py:92-110 | The same with a concrete status line. |
| `Frontmatter.ParseWritten` | helpers/roadmap_block.py:84-115 | The second fence found is the one written last, whatever the values and the body. |
| `Frontmatter.ScanWritten` | helpers/roadmap_block.py:91-110 | For any values: which fields come back, and exactly when a problem is reported. |
| `Frontmatter.LineMatches` | helpers/roadmap_block.py:66 | A written line reads as its key and value unless the value is empty. |
| `Frontmatter.ReadFrontmatter` | helpers/roadmap_block.py:77-115 | The loops compute the parse the round trips are about. |
| `Frontmatter.ScanMeans` | helpers/roadmap_block.py:91-110 | For any lines: a key has the value of its first line, and exactly the lines that are no pair, are outside the schema, repeat a key or would not be a string are reported, each by its number and kind. |
| `Frontmatter.CleanReadingIff` | helpers/roadmap_block.py:91-110 | Nothing is reported if and only if every line is a pair for a schema key that no earlier line has, with a value YAML reads as a string. |
| `Frontmatter.MatchIff` | helpers/roadmap_block.py:66 | A line is a pair exactly when it is a key, a colon and a space, and a value on the same line. |
| `Frontmatter.StrippedWithin` | helpers/roadmap_block.py:98-98 | Trimming takes only spaces, and only from the ends. |
| `Frontmatter.OrderOk` | helpers/roadmap_block.py:33-49 | The schema's keys meet what the round trip asks: words, each once. |

## Left out

- Deadlock freedom of the whole display pipeline, beyond every frame's ending: a focused terminal blocked in COMMIT can be called back with input.
- Wrap-around of the 32-bit frame sequence, of the 64-bit broker and disk counters, and 16-bit handle packing.
- The engine's escape parser, scrollback view, hidden cursor, tabs and resizing; the engine is modelled on values, since only its damage bookkeeping is claimed about.
- HELLO, window-list and control-page publication at start-up, the flush to the display driver and its refusals.
- ServerTree: the server's own implementation, its quotas and 64-bit limits; the model is the tree its contract describes, with the attribute store's limits; the reserved store name and a device that cannot flush are not in it.
- The encoding of a name set in its page, and the subtree caretaker, whose handle table is the one modelled here.
- Requests a caretaker receives without a reply capability: they do nothing.
- The partition table's field encoding, CRCs and name checks, and the verify role's flags beyond which bytes they are computed from; the builder and the parser are parameters.
- Broker items left queued at QUIESCE: the model says they were not delivered, and nothing more.
- A virtqueue request that completes after the wait has ended.
- The console's plain UART mode, and when the line inserter chooses to emit a kernel line.
- The ratchet's text measurement, the detection of renames and touches, and which appendices nothing links to: these are given with the tree.
- Parsing of package files and manifests, and the finding of crate mentions and subtree-grants notes in sources; the checker follows base-to-optional dependencies one edge deep, so no transitive form is claimed.
- Rust lexing, `declarations` and manifest roots in the module walk.
- Prose-form status lines and the `tokens` splitter of roadmap blocks.
- Orphans.WalkIsExact: its condition is sufficient; the exact one is `Orphans.MarkedIff`, which depends on the order the walk goes in.
- Visibility.IndistinguishableIff: for a grant that carries Read with Write or Create but has no granted name to use them on, equal clocks are shown sufficient and not necessary.
- DamageEngine.SafeRunReportsTruly: one way, since a later operation can cover what an unsafe scroll left (`DamageEngine.ClearingRecovers`); the equivalence is the single scroll's.
