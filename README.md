# ControlFlow block language — a Dafny model

ControlFlow is a browser game. The player builds a program for one number
`x` out of draggable blocks: statements (`x += 1`), a print block, for
loops, while loops and if/else blocks. For loops carry three header
blocks: init, condition and increment. While loops and if/else blocks carry
only a condition. The program sits in a code area of 40 lines. It is run
from the problem's initial value, and the answer is right when it ends on
the target.

This project models the core of that game:

- **Blocks** (`blocks.dfy`): the block values, their heights, and the header
  operations `addHeaderBlock`, `acceptHeader`, `removeHeaderBlock` and
  `addChild`.
- **Interpreter** (`interpreter.dfy`): `evaluate` for every block kind.
- **Serialization** (`serialization.dfy`): `serialize` and `deserialize`.
- **Layout** (`layout.dfy`): the code-area layout from `main.js` —
  `shiftBlocksUp`, the scan for the first free line, the drop, and
  `flattenBlocks`. Nothing in `main.js` calls `flattenBlocks`; it is modelled
  on its own.
- **TreeEdit** (`tree.dfy`): the edits inside a block tree — `recursiveRemove`
  and the inner part of `promoteBlock`.
- **Workspace** (`workspace.dfy`): the editor's state (`blocks`, `allBlocks`,
  title, description, target). It is a class whose methods change that
  state, each proved against a function on the old state.
- **States** (`states.dfy`): `Problem`, `User`, `ProblemManager`, `Shop` and
  `createBlockFromData`.

The model's conventions:

- **Blocks are values.** Each block carries an id. Object identity (`===`)
  is modelled as equality of ids.
- **The JavaScript runtime is a parameter.** Statement code is run with
  `new Function` and conditions with `eval`. Both become a `Runtime`
  record of three total functions. In it, `None` means the code throws.
- **Termination.** A while loop runs its body at most 10000 times, as the
  source does. A for loop has no cap in the source, so its model takes a
  `fuel` bound and yields `None` (diverges) once the bound is passed.
- **What the code has.** The code has no break block, no loop-variable
  block, no loop-variable environment (a for loop's `i` is a local of its
  `evaluate`), no cap on for-loop passes, and no serializer that
  round-trips every block. The model follows the code:
  - the only block kinds are those listed above;
  - for loops are uncapped (`Interpreter.ForLoopHasNoCap`);
  - `serialize` drops the header texts, and `deserialize` drops the if/else
    bodies (see Findings).

## Model

| member | source | states |
|---|---|---|
| Decimal.IntToStringRoundTrip | classes.js:617-621 | The decimal text written for a header value parses back to the same integer |
| Decimal.IntToStringInjective | classes.js:617-621 | Distinct integers get distinct decimal texts |
| Blocks.InitLabelRoundTrip | classes.js:617-621 | An init block's label `let i = v` reads back as `v` |
| Blocks.IncLabelRoundTrip | classes.js:632-640 | An increment block's label `i += v` reads back as `v` |
| Blocks.Height | classes.js:45-47 | Every block occupies at least one line |
| Blocks.SumHeights | classes.js:473-475 | The lines a list of blocks occupies: the sum of their heights, as the sections' and bodies' reduce computes |
| Blocks.InitLabel | classes.js:617-621 | An init block's label: `let i = ` then the value in decimal |
| Blocks.IncLabel | classes.js:632-640 | An increment block's label: `i += v` for a non-negative value, `i -= -v` for a negative one |
| Blocks.SumHeightsAppend | classes.js:473-475 | The height of a list of blocks adds up over concatenation |
| Blocks.SumHeightsAtLeastLength | classes.js:80-82 | A list of blocks is at least as high as it is long |
| Blocks.HeaderBlockAt | classes.js:89-95 | getHeaderBlock finds a header block exactly when that slot is filled, and the block found has the slot's kind and id |
| Blocks.AddHeaderBlock | classes.js:84-87 | The header block goes into the slot of its own kind; the other slots, the id and the height are kept; only the header changes (kind, lock flag and children are kept) |
| Blocks.AcceptHeader | classes.js:110-117 | A compound takes a header block exactly when it is a kind the compound accepts and that slot is empty; the block then fills that slot and every other slot is kept; the filled slots are kept; only the header changes; on refusal the compound is unchanged |
| Blocks.RemoveHeaderBlock | classes.js:97-102 | A header block that sits in its slot (same id) is removed, leaving the other slots; otherwise the compound is unchanged; only the header changes |
| Blocks.AcceptThenRemove | classes.js:97-117 | Removing a header block right after it was accepted gives back the original compound |
| Blocks.AddChild | classes.js:61-63 | A loop appends the child to its body; an if/else appends it to the chosen section; header, id and kind are kept; the height grows by the child's height |
| Interpreter.Holds | classes.js:574-581 | evaluateCondition: a condition holds exactly when the runtime evaluates it to true; one that throws is false |
| Interpreter.Run | classes.js:299-325 | evaluate for every block kind (also classes.js:36-43, 187-192, 425-443, 509-542, 559-561): print is the identity; a statement, or a header block lying in a body, runs its text; a compound missing a header it needs returns `x`; otherwise the loop or the chosen section runs; `None` when a for loop passes its fuel |
| Interpreter.RunSeq | classes.js:187-192 | `for (child of children) x = child.evaluate(x)`: each child gets the previous child's result |
| Interpreter.ForIter | classes.js:314-319 | The for loop from a counter value on: the condition is checked with the current `x` and `i`; a pass runs the body and adds the increment to `i`; a throwing condition ends the loop with the current `x` |
| Interpreter.WhileIter | classes.js:523-531 | The while loop after some passes: it stops when the condition fails or 10000 passes are done |
| Interpreter.Exec | classes.js:36-43 | A statement gives the runtime's new value, or leaves `x` as it was when the code throws |
| Interpreter.Evaluate | classes.js:299-325 | The imperative evaluate returns what the recursive semantics `Run` says, for every block kind |
| Interpreter.EvaluateChildren | classes.js:187-192 | Running a body threads `x` through the children in order, as `RunSeq` says |
| Interpreter.RunSeqAppend | classes.js:187-192 | Running two lists in sequence equals running their concatenation |
| Interpreter.MissingHeaderIsNoOp | classes.js:309-312 | A compound missing a header it needs leaves `x` unchanged |
| Interpreter.LeafBlocks | classes.js:36-43 | A print block leaves `x` unchanged; a statement applies its code, or is a no-op when the code throws |
| Interpreter.IfElseRunsOneSection | classes.js:433-438 | An if/else runs exactly its if section when the condition holds, and its else section otherwise |
| Interpreter.ForLoopPasses | classes.js:314-319 | A for loop whose condition holds for exactly n passes (with `i` stepping by the increment) runs its body exactly n times |
| Interpreter.ForLoopHasNoCap | classes.js:314-319 | A for loop whose condition always holds never finishes, whatever the fuel |
| Interpreter.WhileLoopPasses | classes.js:523-531 | A while loop runs its body until the condition fails or 10000 passes are done, whichever comes first |
| Interpreter.WhileLoopStopsAtCap | classes.js:523-531 | A while loop whose condition always holds stops after exactly 10000 passes |
| Interpreter.RunFuelMonotone | classes.js:314-319 | A run that finishes within some fuel gives the same result with any larger fuel |
| Serialization.Serialize | classes.js:327-335 | A compound serializes to a compound record whose header texts are all absent |
| Serialization.Deserialize | classes.js:589-615 | deserialize builds a block exactly for the five statement/compound types; header and unknown records give none |
| Serialization.DeserializeFresh | classes.js:589-615 | Every id in a rebuilt block is a fresh one handed out during the rebuild |
| Serialization.HeaderBlockIsLost | classes.js:583-585 | A header block does not survive serialize followed by deserialize |
| Serialization.StatementRoundTrip | classes.js:49-51 | Statement and print blocks survive serialize then deserialize, up to ids and lock flags (the record keeps only type and text, so a locked line reloads unlocked) |
| Serialization.CompoundLosesHeader | classes.js:589-615 | A compound comes back from serialize then deserialize with the same kind, an empty header, and (for if/else) empty sections; a loop's children come back as `ReloadedSeq` of the original children |
| Serialization.Reloaded | classes.js:589-615 | The reference for a reload: a block comes back exactly when it is not a header block |
| Serialization.ReloadErased | classes.js:589-615 | serialize then deserialize gives back, up to ids and locks, exactly `Reloaded` of the block, at every depth |
| Serialization.ReloadSeqErased | classes.js:598-614 | A reloaded body is, up to ids and locks, `ReloadedSeq` of the original body: its non-header blocks in order, each reloaded |
| Serialization.ReloadedKeepsLength | classes.js:598-614 | A body without header blocks comes back with as many blocks as it had |
| Serialization.StatementsReload | classes.js:598-614 | A loop body made only of statement and print blocks comes back in order and unchanged up to ids and lock flags |
| Serialization.ReloadedCompoundIsInert | classes.js:589-615 | A reloaded compound leaves `x` unchanged |
| Serialization.ReloadChangesResult | classes.js:445-452 | An if/else that adds one gives 1, but its reloaded copy gives 0 |
| Serialization.SerializeFull | classes.js:327-335 | The corrected serializer maps compounds to compound records, with their header texts |
| Serialization.DeserializeFull | classes.js:589-615 | The corrected deserializer fails exactly on unknown records, nulls and header texts that do not parse |
| Serialization.FullRoundTrip | classes.js:589-615 | A well-formed block survives the corrected serialize then deserialize, up to ids and lock flags |
| Serialization.FullReloadKeepsResult | classes.js:589-615 | With the corrected serializer, a reloaded block computes exactly what the original computes |
| Serialization.RunErase | classes.js:187-192 | Ids and lock flags have no effect on evaluation |
| Layout.Expand | main.js:487-498 | Spreading blocks over lines takes as many lines as their total height |
| Layout.Fit | main.js:487-498 | The lines are padded with empty lines or cut to exactly 40 |
| Layout.Compact | main.js:487-498 | shiftBlocksUp always yields exactly 40 lines |
| Layout.PresentExpand | main.js:487-498 | Spreading blocks over lines keeps the blocks and their order |
| Layout.CompactKeepsProgram | main.js:487-498 | Compacting keeps a prefix of the program in order, and the whole program when it fits in 40 lines |
| Layout.CompactIdempotent | main.js:487-498 | Compacting twice is the same as compacting once, for any lines, including a program cut at 40 lines |
| Layout.CutRespaced | main.js:487-498 | The blocks that start on the first 40 lines of a cut program, re-spaced and fitted, give back those 40 lines |
| Layout.CompactLaidOut | main.js:487-498 | Compacting a program that fits gives a laid-out code area |
| Layout.FirstFree | main.js:147-156 | The scan finds an empty line at or after its start, or -1 |
| Layout.FirstFreeAfterProgram | main.js:147-156 | On compacted lines the scan finds the line right after the program, or -1 when the program fills all 40 lines |
| Layout.InsertAt | main.js:472-477 | Inserting at a line still yields 40 lines |
| Layout.InsertKeepsProgram | main.js:472-477 | When the last line is empty and the program plus the dropped block fits in 40 lines, the block lands between the blocks above and below its line, every block kept, and the result is laid out |
| Layout.DropOnFreeLineAppends | main.js:472-477 | Dropped on the first free line of a laid-out program that has room, a block becomes the program's last block |
| Layout.Flatten | main.js:556-564 | flattenBlocks: left to right over the slots, a loop adds itself and its direct children, an if/else (whose own children list stays empty) and a statement add themselves, an empty slot nothing |
| Layout.FlattenWithoutLoops | main.js:556-564 | Without loops, flattenBlocks lists exactly the top-level blocks in order |
| Layout.FlattenContains | main.js:556-564 | flattenBlocks lists every top-level block and every child of a top-level loop |
| Layout.FlattenOnly | main.js:556-564 | Every block flattenBlocks lists is a top-level block or a direct child of a top-level loop |
| TreeEdit.IndexOf | main.js:397 | indexOf gives the first position with the id, or the length when there is none |
| TreeEdit.RecursiveRemove | main.js:526-554 | recursiveRemove: in a compound, first a header slot holding the id is deleted; then each body (the if section before the else section) is searched, first for a direct child with the id, then deeper into each child in order; the edited block and the block taken out, or `None` |
| TreeEdit.RemoveInSections | main.js:529-551 | The search of an if/else's two sections, the if section first |
| TreeEdit.RemoveInList | main.js:541-551 | One body: `indexOf` then `splice` of a direct child with the id, else the deeper search |
| TreeEdit.DeepRemove | main.js:548-550 | The deeper search: the first child, in order, in which recursiveRemove succeeds is replaced by its edited copy |
| TreeEdit.AddChildAt | main.js:441-457 | `compoundHover.addChild(draggingBlock)` with the compound named by its id: the compound with that id, at any depth, gets addChild, and everything else is kept |
| TreeEdit.PromoteIn | main.js:412-435 | promoteBlock's third step on one compound: a loop body holding the block moves it to the end; an if/else holding it in a section (the spread copy is edited, not the sections) or a header holding it is left as it was; `None` when the compound holds it nowhere |
| TreeEdit.RemoveFromHeader | main.js:510-515 | The removed header block has the id searched for, came from its own slot, and the header left is the old one with exactly that slot cleared |
| TreeEdit.RemoveFromHeaderCount | main.js:533-538 | Taking a header block out keeps every id's count across the header and the block removed |
| TreeEdit.RecursiveRemoveSpec | main.js:526-554 | recursiveRemove succeeds exactly when the block holds the id below its top; it takes out a block with that id; it keeps the compound's id and kind; it keeps every id's count across the result and the block removed; when the id occurs once below the top, the result is exactly `Strip` of the block (that block gone, nothing else changed) |
| TreeEdit.RemoveInListSpec | main.js:541-551 | Removing from a body succeeds exactly when the body holds the id, and keeps every id's count; when the id occurs once, the body left is exactly `StripSeq` of the body |
| TreeEdit.DeepRemoveSpec | main.js:548-550 | Removing deeper into a body keeps its length and every id's count, and succeeds whenever the id is present; when no direct child has the id and it occurs once, the body left is exactly `StripSeq` of the body |
| TreeEdit.RemoveInSectionsSpec | main.js:529-531 | Removing from an if/else's sections succeeds exactly when they hold the id, and keeps every id's count; when the id occurs once, the result is exactly `Strip` of the block |
| TreeEdit.RemoveFromHeaderStrips | main.js:533-538 | Deleting a header key that holds the id once leaves the header with every slot of that id cleared |
| TreeEdit.RecursiveRemoveStrips | main.js:526-554 | On a block holding the id once below its top, recursiveRemove succeeds and leaves `Strip` of the block |
| TreeEdit.RemoveInSectionsStrips | main.js:529-531 | On an if/else whose sections hold the id once, the removal leaves `Strip` of the block |
| TreeEdit.RemoveInListStrips | main.js:541-551 | On a body holding the id once, the removal leaves `StripSeq` of the body |
| TreeEdit.DeepRemoveStrips | main.js:548-550 | On a body holding the id once, never as a direct child, the deeper removal leaves `StripSeq` of the body |
| TreeEdit.StripAbsent | main.js:526-554 | Stripping an id a block does not hold below its top leaves the block unchanged |
| TreeEdit.StripSeqAppend | main.js:541-551 | Stripping an id from a concatenation strips each part |
| TreeEdit.AddChildAtSpec | main.js:441-457 | Dropping onto the compound with an id keeps ids, grows the height by the child's height and every id's count by the child's count once per such compound, and changes nothing when there is none; when the block itself is the only such compound, the result is `addChild` on it |
| TreeEdit.AddChildCount | classes.js:61-63 | addChild adds exactly the child's ids to the compound's counts |
| TreeEdit.MoveToEnd | main.js:398-401 | Moving an element to the end keeps the others in order and the list a permutation of itself |
| TreeEdit.MoveToEndKeepsList | main.js:414-417 | Moving a block to the end keeps the total height and every id's count |
| TreeEdit.PromoteInSpec | main.js:408-434 | Promoting inside a compound succeeds exactly when its header or body holds the block; in a loop the body is permuted with the block moved to the end; header, id, height and counts are kept |
| Workspace.SlotIndexOf | main.js:502 | The first top-level line holding the id, searching from the start given, or the end |
| Workspace.Removed | main.js:500-524 | removeBlock on the slots: a top-level block is spliced out and the slots compacted; else the first top-level compound whose header holds the id loses that slot; else the first top-level block in which recursiveRemove succeeds is replaced; the slots and the block taken out |
| Workspace.Promoted | main.js:395-437 | promoteBlock on the sidebar and the slots: the first of the sidebar, the top-level slots and the top-level compounds (PromoteIn) that holds the block |
| Workspace.Dropped | main.js:472-481 | The code-area drop: nothing without a drop line or outside the area; a statement is spliced in, cut to 40 lines and compacted; a header block goes through acceptHeader of the compound on the drop line when the mouse is over it |
| Workspace.HeaderScan | main.js:509-518 | The first top-level compound holding the id in its header |
| Workspace.DeepScan | main.js:521-523 | The first top-level block from which recursiveRemove can take the id |
| Workspace.PromoteScan | main.js:411-435 | The first top-level compound in which the block can be promoted |
| Workspace.RemovedSpec | main.js:500-524 | removeBlock takes a block out exactly when the code area holds the id at any depth; the block taken out has that id. A top-level removal keeps the other blocks in order. A nested removal changes only the one top-level line around it, and when the id is held once that line becomes `Strip` of its block. Every id's count is kept |
| Workspace.RemovedTop | main.js:502-507 | Removing a top-level block splices it out and shifts the rest up, keeping the other blocks in order |
| Workspace.PromotedSpec | main.js:395-437 | promoteBlock permutes the sidebar or moves the block to the last line. The number of lines, total height and every id's count are kept |
| Workspace.MoveToEndKeepsSlots | main.js:405-410 | Moving a top-level line to the end keeps the total height and every id's count |
| Workspace.PromoteInKeepsSlots | main.js:412-434 | Promoting inside a top-level compound keeps the total height and every id's count |
| Workspace.PromoteThenRemove | main.js:363-364 | Picking up a top-level block (promote then remove) gives the same code area as removing it directly |
| Workspace.DroppedSpec | main.js:472-481 | A header block is only ever put into a free slot of the compound under it, which keeps its id and height. A statement block lands between the blocks above and below the drop line |
| Workspace.DefaultDropAppends | main.js:147-156 | With no drop line chosen, a statement block dropped on a laid-out program that has room is appended, and the layout stays laid out |
| Workspace.AddedChild | main.js:441-457 | Dropping onto a compound touches every top-level line only through addChild on the compound with that id |
| Workspace.AddedChildSpec | main.js:441-457 | Each top-level block keeps its id and grows by the child's height, and each id's count by the child's count, once per compound with that id it carries; a block without one is unchanged; a top-level compound that is the only target gets `addChild` |
| Workspace.RemovedRelaid | main.js:500-524 | The corrected removal takes out the same block and keeps the same program as removeBlock |
| Workspace.RelaidDropAppends | main.js:500-524 | After the corrected removal, the default drop appends the block at the end of the program |
| Workspace.StaleScanInsertsMidProgram | main.js:509-523 | After removeBlock takes a statement out of a while loop, the default drop inserts the next block in the middle of the program instead of appending it |
| Workspace.ShiftUp | main.js:487-498 | shiftBlocksUp's loops compute exactly `Compact` of the lines |
| Workspace.SpaceOut | main.js:488-495 | The loop over the old lines puts each block, then one empty line per extra line of its height, in order: `Expand` of the blocks |
| Workspace.PadBlock | main.js:492-493 | The inner loop appends one empty line per line of the block beyond its first |
| Workspace.FitLines | main.js:496-497 | Padding with empty lines up to 40, then keeping the first 40, is `Fit` |
| Workspace.Workspace.constructor | main.js:18-25 | The editor starts with no blocks, empty title and description, and target 0 |
| Workspace.Workspace.ShiftBlocksUp | main.js:487-498 | The code area becomes its compacted form; the rest of the state is unchanged |
| Workspace.Workspace.DefaultGhostIndex | main.js:147-156 | With no drop line and a statement being dragged, the drop line becomes the first free line |
| Workspace.Workspace.DropInCodeArea | main.js:472-481 | The code area becomes `Dropped` of the old one; the rest is unchanged |
| Workspace.Workspace.DropIntoCompound | main.js:441-457 | The code area becomes `AddedChild` of the old one; the rest is unchanged |
| Workspace.Workspace.PromoteBlock | main.js:395-437 | The sidebar and code area become `Promoted` of the old ones |
| Workspace.Workspace.RemoveBlock | main.js:500-524 | The code area becomes `Removed` of the old one |
| Workspace.Workspace.LoadNextProblem | main.js:608-632 | Loading a problem shows its title, description, target and sidebar blocks, starts it for the user, and leaves one locked `x = initial` block on the first line |
| Workspace.LoadedLayout | main.js:628-631 | The freshly loaded code area is laid out |
| States.Problem.constructor | states.js:6-17 | A new problem has no blocks, no counts, no attempts and no criteria |
| States.Problem.AddPredefinedBlock | states.js:23-26 | The block is appended to the predefined blocks; nothing else changes |
| States.Problem.AddAvailableBlock | states.js:33-39 | The block is appended to the sidebar; a given maximum is recorded under its class name |
| States.Problem.SetCompletionCriteria | states.js:45-48 | The criteria are stored; nothing else changes |
| States.Problem.CheckSolution | states.js:55-65 | Each check counts one attempt. The answer follows the criteria when set, else the target; with neither it is false |
| States.TargetVerdict | states.js:59-64 | Without criteria, a result is correct exactly when a target is set and equal to it |
| States.Added | states.js:153-158 | addToInventory raises one item's stock by the quantity and no other |
| States.Taken | states.js:166-172 | removeFromInventory fails exactly when the stock is zero or below the quantity; otherwise it lowers that stock alone |
| States.AddThenTake | states.js:153-172 | Adding then removing the same quantity restores every stock |
| States.NegativeStockRefusesRefund | states.js:166-172 | When the stock was minus the quantity, adding it gives zero and the removal is refused |
| States.Placement | states.js:184-192 | startProblem lays the predefined blocks out over at least 40 lines |
| States.PlacementKeepsProgram | states.js:184-192 | The placed lines hold exactly the predefined blocks, in order |
| States.PlacementLaidOut | states.js:184-192 | Predefined blocks that fit are placed exactly as shiftBlocksUp would lay them out |
| States.PlaceBlocks | states.js:184-192 | The placing loop computes `Placement` |
| States.RunProgram | states.js:209-212 | Running the code area runs its blocks in order from the initial value |
| States.User.constructor | states.js:138-146 | A new user has an empty inventory, no completed problems, no current problem and score 0 |
| States.User.AddToInventory | states.js:153-158 | The inventory becomes `Added` of the old one; the rest is unchanged |
| States.User.RemoveFromInventory | states.js:166-172 | It reports success exactly when `Taken` succeeds, and only then changes the inventory |
| States.User.StartProblem | states.js:178-199 | The problem becomes current; the code area is its placed blocks; the sidebar is its available blocks |
| States.User.SubmitSolution | states.js:207-235 | A run that finishes counts one attempt and reports the verdict. A correct one adds the problem to the completed set and raises the score by the award for the attempt count. A failed one changes nothing |
| States.Position | states.js:317 | The first position of the id in the order, or the length |
| States.NextId | states.js:316-324 | The id after the current one, when there is one |
| States.NextAfterAppend | states.js:297-300 | After adding a problem, it comes next after the former last problem and has none after it |
| States.ProblemManager.constructor | states.js:288-291 | A new manager has no problems |
| States.ProblemManager.AddProblem | states.js:297-300 | The problem is stored under its id and appended to the order |
| States.ProblemManager.GetProblem | states.js:307-309 | Looks a problem up by id, or none |
| States.ProblemManager.GetNextProblem | states.js:316-324 | The problem after the current one in the order, when there is one and it is stored; none without a current one |
| States.CreateBlockFromData | states.js:818-909 | createBlockFromData: the block of the data's type under the next id, with its lock flag, and a compound's header blocks from the data under the ids after it; `None` for an unknown type |
| States.CreateBlockFromDataSpec | states.js:818-909 | A block is built exactly for the eight known types. It is locked exactly when the data says so. Each statement, print, condition, init and increment type gets that node with the data's text or value. A compound gets exactly the header kinds its data lists and its class accepts, with their values, and an empty body (both sections empty for an if/else) |
| States.CreateBlockFromDataFresh | states.js:818-909 | Every id in a built block is fresh, and each is used once |
| States.Shop.constructor | states.js:922-925 | The shop holds the given price list |
| States.Shop.Buy | states.js:928-934 | Corrected buy: -1 when the product has no price or the score cannot pay; otherwise the score left after paying, never negative |
| States.Shop.BuyAsWritten | states.js:928-934 | buy as written throws whenever no global `contents` is declared |
| States.InitializeDefaultShop | states.js:936-941 | The default shop sells the for block for 5 |
| States.DefaultShopBuyThrows | states.js:928-941 | The default shop's buy, as corrected, charges 5 or refuses a score of 4; as written it throws |

## Left out

- Geometry, drawing and mouse input (p5.js) are left out. The values the
  mouse handlers read become parameters: the ghost line, whether the mouse is
  in the code area or over a block, the hovered compound, and the if/else
  section. `findBlockAt` and `findDeepestCompoundHover` are not part of this
  model.
- Aliasing and in-place mutation of block objects are not modelled. Blocks
  are values, so `addHeaderBlock`, `removeHeaderBlock`, `addChild` and
  `recursiveRemove` return edited copies. The model misses a block object
  shared between the sidebar and the code area, and seen changing in both.
- `new Function` and `eval` are the `Runtime` parameter. The text of
  statements and conditions is not interpreted, and no JavaScript coercion
  is modelled.
- Numbers are integers. Floating point and the decimal-places comparison of
  fractional targets are not modelled.
- `localStorage`, `console` output, `fetch` and loading problems from JSON are
  I/O and are left out.
- Interpreter.Run: each for loop may make at most `fuel` passes, where the
  source may loop forever. A loop that would need more gives `None`, so a
  program that finishes only after more passes than the fuel is reported as
  diverging.
- Serialization.Deserialize: an if/else record's `ifBody` and `elseBody` are
  stored by the source into the fields `ifChildren` and `elseChildren`, which
  nothing reads; the model keeps no such fields, so the rebuilt if/else has
  empty sections, which is what evaluation and layout see.
- Serialization.Deserialize: a null child inside a body (what a header block
  placed in a loop's body comes back as) is dropped, and the model lays the
  program out as usual. The source keeps the null in the body, and the next
  layout of the loaded lines throws: `getHeightInLines` (classes.js:81) reads
  the null child in shiftBlocksUp and drawCodeLines. The loaded loop's body
  itself never runs, because its header comes back empty.
- States.CreateBlockFromDataSpec: init and increment blocks take their
  numeric value directly, not the text the source passes to their
  constructors.
- Interpreter.Run: the source's `i += incBlock.value` concatenates strings
  when the header values are text; the model's values are integers, so the
  loop variable always steps by a number.
- Interpreter.Run: the for-loop condition is run with a direct `eval`, so it
  can assign to `x` or `i`; the runtime's `loopCondition` returns only a
  truth value, and such side effects are not modelled.
- States.Problem.constructor: the default arguments are not modelled; every
  field is given. The same holds for the `quantity = 1` defaults of
  States.User.AddToInventory, States.User.RemoveFromInventory and
  States.Shop.Buy (states.js:153, 166, 928): the model takes the quantity
  explicitly.
- `Problem.initialize` is not modelled, because it only copies references
  between fields that the model already holds as values.
- States.User.SubmitSolution: `completedProblems` is a set of problem ids, not
  an object of `{completed: true}` records.
- States.User.StartProblem: lines that the source leaves as holes in the
  array are `None`.
- States.ProblemManager.AddProblem: adding a problem whose id is already
  present appends the id to the order a second time, as the source does.
  The model proves no property about that case.
- Workspace.Workspace.LoadNextProblem: the id of the new `x = initial` block is
  a parameter.
- Workspace.Workspace.PromoteBlock: the order of keys in the header object
  after promoteBlock's delete and re-add is not modelled, because headers are
  named fields.
- `WhileBlock.evaluate_cond` is never called and is left out.
- The static tables of block colours, sizes and problem texts are left out.

## Findings

| source | as written | input that shows it | evidently intended | confidence | as-written member | corrected member |
|---|---|---|---|---|---|---|
| classes.js:599-605 | `serialize` (classes.js:327-335 for the for loop, 544-550 for the while loop) writes the legacy `init`/`cond`/`inc` fields, which no block sets, so the header texts are lost; `deserialize` puts an if/else's bodies into `ifChildren`/`elseChildren`, which nothing reads, so its sections come back empty. A saved program reloads with every compound inert | An if/else with condition `x < 10` and body `x += 1`, run from 0: it gives 1, while its reloaded copy gives 0 | Save the headers and sections, so that a reload computes the same result | not executed | Serialization.ReloadChangesResult | Serialization.FullReloadKeepsResult |
| states.js:928-934 | `buy` reads an undeclared global `contents` instead of `this.contents`, so every call throws a ReferenceError | The default shop buying one for block with score 10 | Read the shop's own price list | not executed | States.DefaultShopBuyThrows | States.Shop.Buy |
| main.js:509-523 | `removeBlock` calls `shiftBlocksUp` only after a top-level removal. A removal from inside a compound leaves the compound's empty lines behind | Lines `[while{x += 1}, _, x *= 2]`: remove `x += 1`, then drop `x -= 1` with no drop line; it lands between the loop and `x *= 2` | Compact the lines after every removal, so the default drop appends | not executed | Workspace.StaleScanInsertsMidProgram | Workspace.RelaidDropAppends |
