# Verified models of the configuration library and the console

This project models four parts of an eCos-based board support tree and proves what they promise.

**The libcdl hierarchy** (`Forest`, `CdlState`, `CdlUpdate`, `CdlLoad`, `CdlBind`, `CdlUnbind`, `CdlUndo`, `CdlDetach`,
`CdlTearDown`, `CdlSurvivors`, `CdlCancel`, `CdlReverse`, `CdlUnloads`, `CdlRebind`, `CdlReturn`, `CdlBackwards`,
`CdlPlaces`, `CdlRuns`, `CdlStray`, `CdlToplevel`, `Vectors`). A configuration keeps one structure in several views:
parents and contents, owners and owned nodes, bindings and referrers, a table of names, a vector of loadables.
Parent properties move nodes when packages are loaded, and a package is unloaded in two stages: it is unbound
and detached at once, and deleted or attached again when the transaction ends. Any number of unloads can be
pending while other packages are loaded, bound and unloaded. `CdlToplevel` has the methods that change the
fields; the other modules say what those methods compute and prove what it means, up to a theorem about all
runs and the exact condition for cancelling unloads in reverse order.
`Savefile` and `SavefileToplevel` are the part of the save file that describes the file's own commands.

**The numbers of the console** (`Div64`, `Numerals`, `Decimal`, `Layout`, `Printer`, `Format`, `C99`, `Directives`,
`Spelling`, `Vsnprintf`, `Strtoul`, `PrintParse`, `CText`). Division by shifting and subtracting, decimal digits
by reciprocal multiplication, the layout of numbers and strings and where it is the one of ISO C99, the
format scanner and the writing of formats, and the parser that reads numbers back.

**The shell line editor** (`Terminal`, `EditLine`, `Escape`, `Session`, `StayInStep`, `Keys`, `Strokes`, `Lines`,
`LineEditor`, `Recall`, `History`, `ShellList`, `Rings`). The edit buffer and the bytes echoed for each
key, a terminal line that interprets those bytes, the decoder for escape sequences, the history ring and
the command list.

**Four algorithms**: the custom build step parser (`BuildStep`, `BuildStepText`), the sharing of header files
(`ConfigHeaders`), the 32-bit to 7-bit repacker (`Repack`, `RepackNumbers`) and the trace vector (`TraceRing`).

Each method is proved against a specification function, and the theorems are about those functions, with the
characters, bytes and bases of the source written out in them. That no
scan reads past the terminator of a string is a precondition of `CText.At`, which every use has to meet.

## Where the code differs from its own description

* `PrintThenParse`: a number printed with `#` and capital letters (`0X1F`) is not read back, because the
  parser only knows a small `x`; it stops behind the first zero.
* `PrintThenDetect`: a decimal number with zeros in front is read as octal when the base is left to be
  detected; the lemma says for which widths and precisions that is so.
* `DroppedIff`: the comment at `release/cli/src/dvt_shell.c:265`, for a sequence without parameter bytes, says that the
  final byte of an unknown sequence is dropped. There it never is: the code falls through to the key switch,
  which types the byte (`FinalIsTyped`). An unknown sequence with one to four parameter bytes is dropped. A longer one
  overflows the buffer of eight bytes, and its bytes are typed (`LongIsTyped`).
* `ReadLine`: the only call, at `release/cli/src/dvt_shell.c:813`, passes the size of its array as the room. The
  terminator of a full line is then stored one cell behind the array; of any other line it is stored inside.
* `Recall.RecallsInOrder`: `HIST_MAX` is 2 in `release/cli/include/dvt_shell.h:6`, so that exactly one line can be
  recalled; the theorem holds for every capacity.
* `NoRulesExactly`: a rule block of nothing but blanks is accepted as one empty rule, although the comment at
  `ecos-3.0/tools/src/libcdl/build.cxx:327` expects it to be refused.
* `SameOrderNeverRestores`: the comment at `ecos-3.0/tools/src/libcdl/base.cxx:1837` asks that detaching and attaching
  be exactly reversed; the same order never restores the configuration.
* `ReverseCancelCanFail`: the reverse order is not enough either. Every unload unbinds before it detaches
  (`ecos-3.0/tools/src/libcdl/config.cxx:945`), and that can evict nodes from below the toplevel, so that the place
  remembered for an earlier loadable is gone and the assertion at `ecos-3.0/tools/src/libcdl/base.cxx:1910` fails.
  `FirstReturnsIff` and `ReverseCancelIff` say exactly when each loadable finds its place, with the `bind` that
  follows each attachment and by a count that can be made before the first cancellation. They assume that no
  node with a conflict stands directly below the toplevel; `ConflictOrphans` shows that the updates which make
  conflicts leave their nodes with the orphans.
* `ListIsRight`: the two header loops agree only while no loadable names `system.h` or nothing at all; the
  second is a loop invariant of `get_config_headers`, the first is not checked anywhere.
* `ConformsIff`, `DirectiveIff`: an integer is not printed as section 7.19.6.1 of ISO C99 asks in four cases, and,
  `OperandIff` apart, only in these.
  Zero with the precision zero shows a digit. Zero with `#` in base 16 gets the prefix. With `#` in base 8 a
  zero is put in front of one that is there already, except where zero padding hides it. And zeros instead
  of blanks fill the width in front of a precision.
* `StringArgumentIff`: a negative precision argument is taken for zero and not for an omitted one. Numbers do not
  show it (`NumberArgumentIff`), strings do.
* `OperandIff`: `z` with a signed conversion reads an unsigned number, and `t` with an unsigned one a signed number.

## Model

| member | source | states |
|---|---|---|
| `CdlRuns.EveryRunKeepsTheTree` | ecos-3.0/tools/src/libcdl/base.cxx:1769-1938 | in every state that any run of loads, bindings, parent updates, first stages of unloads, commits and cancellations can reach, in any order and with any number of unloads pending: each attached node climbs by a finite parent chain to the toplevel, every node that has a parent stands in its contents exactly once and in nobody else's, and every pending loadable can be deleted safely |
| `CdlRuns.StepKeepsValid` | ecos-3.0/tools/src/libcdl/base.cxx:1386-1441 | each single step keeps the whole invariant, whatever unloads are pending: the tree, the name table, the owned vectors, the bindings, why each node is where it is, and that each pending loadable still hangs together |
| `CdlRuns.InitialIsValid` | ecos-3.0/tools/src/libcdl/base.cxx:1664-1705 | what the toplevel constructor builds, the toplevel and its orphans container, satisfies the invariant |
| `CdlDetach.BeginKeepsValid` | ecos-3.0/tools/src/libcdl/config.cxx:941-949 | the first stage of an unload, unbinding and detaching, keeps the invariant and makes the loadable one of the pending ones, whatever others there are |
| `CdlDetach.DetachedIsValid` | ecos-3.0/tools/src/libcdl/base.cxx:1819-1887 | taking an isolated loadable out of the toplevel keeps the invariant |
| `CdlSurvivors.CommitKeepsValid` | ecos-3.0/tools/src/libcdl/base.cxx:1405-1419 | the second stage on commit, the deletion, keeps the invariant at whatever time it comes |
| `CdlCancel.CancelKeepsValid` | ecos-3.0/tools/src/libcdl/base.cxx:1891-1938 | the second stage on cancellation keeps the invariant if and only if what `add_node_to_toplevel` relies on is there: both remembered places exist and none of the names has been taken |
| `CdlCancel.CancelRestores` | ecos-3.0/tools/src/libcdl/base.cxx:1924-1938 | attached again before anything else happens, a loadable leaves exactly the configuration that `unbind` made, in every field; the `bind` that follows is that of BindAtRoot |
| `CdlBind.BindResolves` | ecos-3.0/tools/src/libcdl/base.cxx:1184-1278 | `bind` keeps the invariant; afterwards the parent property of each owned node, and of each other node that had a conflict, is bound if and only if its destination is known, and to the node of that name |
| `Forest.ReparentKeepsTree` | ecos-3.0/tools/src/libcdl/base.cxx:3663-3680 | moving a node keeps the tree exactly when its new parent is neither the node nor below it |
| `Forest.LeafKeepsTree` | ecos-3.0/tools/src/libcdl/base.cxx:1769-1810 | hanging a new node without contents below any node keeps the tree |
| `Forest.SubtreeShrinks` | ecos-3.0/tools/src/libcdl/base.cxx:776-802 | the nodes below a child are a proper part of those below its parent, which is what ends the recursion of `contains` |
| `CdlUpdate.MoveKeepsTree` | ecos-3.0/tools/src/libcdl/base.cxx:1970-1999 | `change_parent` to a node that can have contents keeps parents and contents in agreement and the tree intact if and only if that node is not the moved one or below it |
| `CdlUpdate.HandleAtKeepsTree` | ecos-3.0/tools/src/libcdl/base.cxx:3638-3688 | the update handler with a destination keeps the tree; among containers it refuses exactly those whose choice would break the tree |
| `CdlUpdate.HandleNowhereKeepsTree` | ecos-3.0/tools/src/libcdl/base.cxx:3599-3637 | the update handler without a destination puts the node below the root or below the orphans and keeps the tree |
| `CdlUpdate.RootPlaceFits` | ecos-3.0/tools/src/libcdl/base.cxx:3613-3625 | the place looked for below the root exists, and is still within the contents once the node has been taken out |
| `CdlUpdate.LoadedKeepsValid` | ecos-3.0/tools/src/libcdl/property.cxx:594-611 | a Loaded update keeps the invariant whether or not the name is resolved |
| `CdlUpdate.CreatedKeepsValid` | ecos-3.0/tools/src/libcdl/property.cxx:625-638 | a Created update binds the property and keeps the invariant |
| `CdlUpdate.DestroyedKeepsValid` | ecos-3.0/tools/src/libcdl/property.cxx:639-647 | a Destroyed update unbinds the property, moves the node away from its destination and keeps the invariant |
| `CdlLoad.AddKeepsValid` | ecos-3.0/tools/src/libcdl/base.cxx:1769-1810 | `add_node` of a node with an unused name, as the loaders call it, keeps the invariant |
| `CdlLoad.AddPutsLast` | ecos-3.0/tools/src/libcdl/base.cxx:1769-1810 | `add_node` puts the node last into the contents of the container it was given and last among the nodes of its owner, its name leads to it, a loadable is last among the loadables, and nothing else is different |
| `CdlPlaces.MoveReparents` | ecos-3.0/tools/src/libcdl/base.cxx:1970-1999 | `change_parent` takes the node out of the contents it is in and puts it at the given place, or last, into those of the new parent; all other nodes keep their order |
| `CdlPlaces.HandlerAtPlaces` | ecos-3.0/tools/src/libcdl/base.cxx:3638-3688 | the update handler with a destination puts the node last into its contents, unless the destination is no container or stands below the node |
| `CdlPlaces.HandlerNowherePlaces` | ecos-3.0/tools/src/libcdl/base.cxx:3599-3637 | without a destination, a property that names the root puts the node behind those children of the toplevel at its front that have parent properties; any other puts it last among the orphans |
| `CdlPlaces.UnbindPlaces` | ecos-3.0/tools/src/libcdl/base.cxx:1281-1313 | `unbind` puts each node of the loadable that has a parent property directly below the loadable, the loadable below the toplevel, and what was bound to its nodes below the orphans; every other node stays below its parent |
| `CdlPlaces.DetachPlaces` | ecos-3.0/tools/src/libcdl/base.cxx:1868-1887 | detaching takes the loadable out of the contents of the toplevel and the vector of loadables, and remembers its places in them |
| `CdlPlaces.AttachPlaces` | ecos-3.0/tools/src/libcdl/base.cxx:1924-1938 | attaching puts the loadable back at the remembered places, whatever is there by then |
| `CdlPlaces.LoadsInOrder` | ecos-3.0/tools/src/libcdl/base.cxx:1184-1278 | `bind` treats the owned nodes from the front |
| `CdlPlaces.EvictsInOrder` | ecos-3.0/tools/src/libcdl/base.cxx:1293-1302 | `unbind` treats the referrers of the owned nodes from the front |
| `CdlPlaces.ReturnsInOrder` | ecos-3.0/tools/src/libcdl/base.cxx:1307-1313 | `unbind` returns the owned nodes from the front |
| `CdlUnbind.EvictAllWorks` | ecos-3.0/tools/src/libcdl/base.cxx:1293-1302 | the referrer loops of `unbind` end with no property bound to a node of the loadable, and keep the invariant |
| `CdlUnbind.UnboundMeansNoGuests` | ecos-3.0/tools/src/libcdl/base.cxx:1293-1302 | once nothing refers to its nodes, no foreign node is left below a loadable |
| `CdlUnbind.ReturnAllWorks` | ecos-3.0/tools/src/libcdl/base.cxx:1307-1313 | the Unloading updates, in `owned` order, bring every node of the loadable back below a node it owns earlier |
| `CdlUnbind.UnbindIsolates` | ecos-3.0/tools/src/libcdl/base.cxx:1281-1313 | after `unbind` the loadable is isolated, whatever other unloads are pending: only its own nodes are below it, each below one that precedes it in `owned` |
| `CdlTearDown.TearDownIsSafe` | ecos-3.0/tools/src/libcdl/base.cxx:1047-1085 | whatever happened since it was detached, the destructor of a pending loadable meets every container with empty contents, and `owned` shrinks from the back to the loadable alone |
| `CdlTearDown.RemainingIsSafe` | ecos-3.0/tools/src/libcdl/base.cxx:1063-1079 | if each owned node hangs below an earlier one, deleting from the back never deletes a node that has contents |
| `CdlDetach.RemovalDetaches` | ecos-3.0/tools/src/libcdl/base.cxx:1868-1887 | detaching an isolated loadable takes exactly its nodes and names out of the toplevel and unlinks exactly the loadable |
| `CdlSurvivors.RemnantIsValid` | ecos-3.0/tools/src/libcdl/base.cxx:1047-1085 | what is left after a pending loadable has been deleted satisfies the invariant |
| `CdlSurvivors.DeleteAllLeaves` | ecos-3.0/tools/src/libcdl/base.cxx:1047-1085 | deleting the nodes of a loadable takes exactly these nodes out of all fields; the owned vectors of all others are as before |
| `CdlUndo.NodeUndo` | ecos-3.0/tools/src/libcdl/base.cxx:1819-1866 | detaching a node and attaching it again restores every field |
| `CdlUndo.UndoIsExact` | ecos-3.0/tools/src/libcdl/base.cxx:1868-1938 | detaching the nodes of a loadable and attaching them again restores contents and loadables order, names, parents and positions |
| `CdlUndo.NestedUndoIsExact` | ecos-3.0/tools/src/libcdl/base.cxx:1868-1938 | detachments that follow each other without an `unbind` in between are undone exactly in the reverse order, for any number of vectors of nodes |
| `CdlReverse.UnbindAtRoot` | ecos-3.0/tools/src/libcdl/base.cxx:1281-1313 | directly below the toplevel `unbind` leaves the loadable and exactly those nodes that are neither its own nor bound to its own |
| `CdlUnloads.RootAfterAll` | ecos-3.0/tools/src/libcdl/config.cxx:1049-1055 | after any number of unloads the toplevel has exactly as many nodes as it had before that are neither nodes of an unloaded loadable nor bound to one |
| `CdlRebind.BindAtRoot` | ecos-3.0/tools/src/libcdl/base.cxx:1184-1278 | after `bind` of an isolated loadable there stand directly below the toplevel: the loadable if it has no parent property, names the root, or names a known node that is no container or its own; exactly those of its other nodes that name the root; and what stood there before |
| `CdlRebind.ConflictOrphans` | ecos-3.0/tools/src/libcdl/property.cxx:586-647 | an update that leaves a parent property without its destination puts the node below the orphans, so that a node with a conflict does not wait directly below the toplevel |
| `CdlReturn.CancelIsolates` | ecos-3.0/tools/src/libcdl/base.cxx:1924-1938 | attached again, a loadable is as isolated as `unbind` had left it, whatever happened in between |
| `CdlReturn.ReturnAtRoot` | ecos-3.0/tools/src/libcdl/base.cxx:1427-1441 | cancelling an unload adds to the nodes directly below the toplevel exactly the nodes of the loadable that name the root, and the loadable unless its `bind` moves it away |
| `CdlBackwards.FirstReturnsIff` | ecos-3.0/tools/src/libcdl/base.cxx:1427-1441 | two unloads, the second one cancelled with its `bind`: there is a place for the first loadable if and only if the remembered one is at most the number of nodes that stay below the toplevel without the second loadable, plus the nodes of that which name the root, plus one if it remains there itself; attached without a place the first loadable is in nobody's contents and the configuration is not valid |
| `CdlBackwards.ReverseCancelIff` | ecos-3.0/tools/src/libcdl/transact.cxx:1773-1777 | any number of unloads, cancelled in reverse order and each with its `bind`: nothing that attaching relies on is missing if and only if the remembered place of each loadable is at most the number of nodes that stayed below the toplevel plus those that the loadables behind it bring back, counted on the configuration before the unloads |
| `CdlStray.ReverseCancelCanFail` | ecos-3.0/tools/src/libcdl/transact.cxx:1773-1777 | a run of five steps after which two unloads, cancelled in reverse order with `bind`, leave a loadable whose parent is the toplevel and that stands in no contents |
| `CdlUndo.SameOrderNeverRestores` | ecos-3.0/tools/src/libcdl/base.cxx:1837-1841 | detaching two loadables and attaching them again in the same order never restores the configuration |
| `CdlToplevel.Toplevel.constructor` | ecos-3.0/tools/src/libcdl/base.cxx:1664-1705 | builds the initial configuration |
| `CdlToplevel.Toplevel.Contains` | ecos-3.0/tools/src/libcdl/base.cxx:776-802 | answers whether a node is a child, or with `recurse` anywhere below, for every tree; it terminates |
| `CdlToplevel.Toplevel.AddNode` | ecos-3.0/tools/src/libcdl/base.cxx:1769-1810 | the new state is the old one with the node entered into all five views |
| `CdlToplevel.Toplevel.RemoveNodeFromToplevel` | ecos-3.0/tools/src/libcdl/base.cxx:1819-1866 | detaches a node, remembering both positions of a loadable |
| `CdlToplevel.Toplevel.RemoveLoadableFromToplevel` | ecos-3.0/tools/src/libcdl/base.cxx:1868-1887 | detaches the owned nodes from the back, skipping those already detached |
| `CdlToplevel.Toplevel.AddNodeToToplevel` | ecos-3.0/tools/src/libcdl/base.cxx:1891-1922 | attaches a node at its remembered positions and forgets them |
| `CdlToplevel.Toplevel.AddLoadableToToplevel` | ecos-3.0/tools/src/libcdl/base.cxx:1924-1938 | attaches the owned nodes from the front |
| `CdlToplevel.Toplevel.ChangeParent` | ecos-3.0/tools/src/libcdl/base.cxx:1970-1999 | takes the node out of one vector and puts it into another at the given place, or at the end |
| `CdlToplevel.Toplevel.UpdateHandler` | ecos-3.0/tools/src/libcdl/base.cxx:3549-3692 | does exactly what the kind of change and the destination decide, with the cycle check made by `contains` |
| `CdlToplevel.Toplevel.Unbind` | ecos-3.0/tools/src/libcdl/base.cxx:1281-1313 | evicts referrers and returns the owned nodes, each by one property update |
| `CdlToplevel.Toplevel.EvictForeigners` | ecos-3.0/tools/src/libcdl/base.cxx:1293-1302 | the loop over the owned nodes |
| `CdlToplevel.Toplevel.EvictReferrers` | ecos-3.0/tools/src/libcdl/base.cxx:1296-1301 | the inner loop, last referrer first |
| `CdlToplevel.Toplevel.ReturnNodes` | ecos-3.0/tools/src/libcdl/base.cxx:1307-1313 | the loop that sends Unloading updates |
| `CdlToplevel.Toplevel.Destroy` | ecos-3.0/tools/src/libcdl/base.cxx:1047-1085 | deletes the owned nodes from the back; each deleted node has empty contents |
| `CdlToplevel.Toplevel.Delete` | ecos-3.0/tools/src/libcdl/base.cxx:1944-1966 | takes a node out of its owner and its parent |
| `CdlToplevel.Toplevel.BindLoadable` | ecos-3.0/tools/src/libcdl/base.cxx:1184-1278 | Loaded updates for the owned nodes and Created updates for the nodes with conflicts, as specified, on a valid configuration |
| `CdlToplevel.Toplevel.MoveAway` | ecos-3.0/tools/src/libcdl/base.cxx:3599-3637 | the loop that looks for the place below the root, and the move there or to the orphans |
| `CdlToplevel.Toplevel.CommitUnload` | ecos-3.0/tools/src/libcdl/base.cxx:1405-1419 | deletes a pending loadable and keeps the invariant |
| `CdlToplevel.Toplevel.CancelUnload` | ecos-3.0/tools/src/libcdl/base.cxx:1427-1441 | attaches a returnable pending loadable, binds it and keeps the invariant |
| `CdlToplevel.Toplevel.UnloadPackage` | ecos-3.0/tools/src/libcdl/config.cxx:941-949 | unbinds and detaches a loadable and keeps the invariant |
| `CdlToplevel.Toplevel.UpdateProperty` | ecos-3.0/tools/src/libcdl/property.cxx:586-657 | binds, unbinds or leaves the reference by the kind of change and then runs the handler |
| `Savefile.ResaveLosesNothing` | ecos-3.0/tools/src/libcdl/base.cxx:2584-2671 | for any file and any application, a load and a save declare exactly the commands and subcommands of the file and of the application together |
| `Savefile.ChainLosesNothing` | ecos-3.0/tools/src/libcdl/base.cxx:2748-2852 | the same through any number of applications, each loading what the one before it saved |
| `Savefile.ResaveIsStable` | ecos-3.0/tools/src/libcdl/base.cxx:2584-2671 | a further load and save by the same application reproduces the header exactly, order included |
| `Savefile.LoadRemembers` | ecos-3.0/tools/src/libcdl/base.cxx:2748-2852 | what loading remembers is exactly what the file declares beyond what the application knows |
| `Savefile.LoadIsTidy` | ecos-3.0/tools/src/libcdl/base.cxx:2748-2852 | nothing is remembered twice, and nothing known is remembered |
| `Savefile.LoadInOrder` | ecos-3.0/tools/src/libcdl/base.cxx:2748-2852 | names are remembered in the order in which the file first declares them |
| `Savefile.SaveInOrder` | ecos-3.0/tools/src/libcdl/base.cxx:2584-2671 | the known commands and subcommands come first in the header, then the remembered ones |
| `SavefileToplevel.Toplevel.HandleCommand` | ecos-3.0/tools/src/libcdl/base.cxx:2748-2852 | one declaration updates the two remembered vectors as the specification says |
| `SavefileToplevel.Toplevel.ExtendSubcommands` | ecos-3.0/tools/src/libcdl/base.cxx:2808-2837 | the loops over the subcommands append exactly the new unknown ones, in order |
| `SavefileToplevel.Toplevel.LoadFile` | ecos-3.0/tools/src/libcdl/base.cxx:2748-2852 | all declarations of a file, one after the other |
| `SavefileToplevel.Toplevel.SaveCommandDetails` | ecos-3.0/tools/src/libcdl/base.cxx:2584-2671 | the two output loops write the known and then the remembered commands, each with all its subcommands |
| `Div64.DivideLong` | release/cli/include/div64.h:22-53 | for every 64-bit dividend and every positive 32-bit divisor: dividend = quotient * divisor + remainder with remainder < divisor; no sum, product or doubling leaves its width; the loops end |
| `Div64.DoDiv` | release/cli/include/div64.h:57-67 | quotient and remainder on both paths |
| `Div64.FastPathAgrees` | release/cli/include/div64.h:57-67 | below 2^32 the shift-subtract loop gives the quotient and the remainder of the 32-bit path |
| `Div64.Divide` | release/cli/include/div64.h:72-77 | `lldiv` is the integer quotient |
| `Div64.Unique` | release/cli/include/div64.h:22-67 | quotient and remainder are determined by their defining equation |
| `Decimal.By205` | release/cli/src/cli_console.c:52-70 | multiplying by 0xcd and shifting by 11 divides by 10 exactly up to 1028 |
| `Decimal.By13` | release/cli/src/cli_console.c:63 | multiplying by 0xd and shifting by 7 divides by 10 exactly up to 68 |
| `Decimal.BoundsAreTight` | release/cli/src/cli_console.c:44-78 | one more and either approximation is wrong |
| `Decimal.Carries` | release/cli/src/cli_console.c:44-78 | the weighted hexadecimal digits yield the decimal ones carry by carry, and every intermediate stays within the exact range |
| `Decimal.PutDecTrunc` | release/cli/src/cli_console.c:44-78 | one to five digits without a superfluous zero, for every number up to 99999 |
| `Decimal.PutDecFull` | release/cli/src/cli_console.c:80-120 | always five digits, for every number up to 99999 |
| `Decimal.ChunkText` | release/cli/src/cli_console.c:122-131 | the low five digits can be written before the rest |
| `Decimal.PutDec` | release/cli/src/cli_console.c:122-131 | the decimal digits of every 64-bit number, least significant first |
| `Decimal.TextIsCanonical` | release/cli/src/cli_console.c:122-131 | at most 20 characters, all digits, no superfluous leading zero, and they denote the number |
| `Numerals.DigitsAreCanonical` | release/cli/src/cli_console.c:192-215 | the digits of a number are in range, have no superfluous leading zero and denote the number |
| `Numerals.CanonicalIsUnique` | release/cli/src/cli_console.c:192-215 | no other canonical digits denote the number |
| `Printer.OrCaseIsDigitChar` | release/cli/src/cli_console.c:167-169 | or-ing with 0x20 leaves decimal digits alone and makes letters small |
| `Printer.ShiftDigits` | release/cli/src/cli_console.c:201-212 | masking and shifting gives the digits in base 8 and 16 |
| `Printer.Number` | release/cli/src/cli_console.c:155-252 | the loops over `size`, `precision` and `i` put out sign, prefix, padding, zeros and digits as laid out, for every number, width, precision and flag combination |
| `Printer.StrNLen` | release/cli/src/cli_console.c:254-261 | the length up to the terminator, or the count if that is smaller |
| `Printer.StringField` | release/cli/src/cli_console.c:262-280 | the string, cut to the precision and padded on the asked side; a null pointer shows as <NULL> |
| `Layout.NumberLength` | release/cli/src/cli_console.c:155-252 | a number takes max(width, sign + prefix + max(digits, precision)) characters |
| `Layout.StringLength` | release/cli/src/cli_console.c:262-280 | a string takes max(width, min(length, precision)) characters |
| `Format.ItemsCover` | release/cli/src/cli_console.c:350-486 | the items found in a format spell the format exactly: nothing is skipped, and nothing behind the terminator is used |
| `Spelling.ScanReads` | release/cli/src/cli_console.c:350-420 | wherever a directive is written, with any flags, width, precision, qualifier and digits, the scanner reads exactly this directive and ends at its conversion character |
| `Format.ConversionFills` | release/cli/src/cli_console.c:422-506 | every directive takes exactly the characters that its width, precision and operand ask for |
| `Format.OutputFills` | release/cli/src/cli_console.c:350-520 | the length of the output is the sum over the items |
| `Format.SignedMagnitude` | release/cli/src/cli_console.c:173-185 | a sign is printed exactly for what is negative in its own width, in front of its magnitude |
| `C99.ConformsIff` | release/cli/src/cli_console.c:155-252 | a number is printed as section 7.19.6.1 of ISO C99 asks, with its sign, prefix, digits, zeros and blanks written out there, if and only if, by number, base, width, precision and flags, none of four deviations applies |
| `C99.PrecisionIff` | release/cli/src/cli_console.c:392-405 | the precision is that of the standard if and only if it is not a negative argument |
| `C99.NumberArgumentIff` | release/cli/src/cli_console.c:392-405 | for a number a negative precision argument makes no further difference |
| `C99.StringArgumentIff` | release/cli/src/cli_console.c:392-405 | a string with a negative precision argument is printed as the standard asks if and only if it is all blanks and no longer than its field |
| `C99.OperandIff` | release/cli/src/cli_console.c:486-504 | the operand is the two's complement number of the width of its qualifier and the signedness of its conversion except, for numbers negative in 32 bits, with z signed and t unsigned |
| `Directives.NumberReads` | release/cli/src/cli_console.c:155-252 | with any flags, width and precision, the digits in the text of a number denote its magnitude |
| `Directives.MinusShows` | release/cli/src/cli_console.c:173-185 | there is a minus in the text if and only if the conversion is signed and the number negative |
| `Directives.ValueShows` | release/cli/src/cli_console.c:155-252 | texts of different numbers are different |
| `Directives.ConversionIff` | release/cli/src/cli_console.c:422-506 | d and i print a signed number in base 10, u an unsigned one, o in base 8, x in base 16 with small and X with large letters, as the standard asks, if and only if the qualifier does not change the number and none of the four deviations applies |
| `Directives.DirectiveIff` | release/cli/src/cli_console.c:378-506 | the same for a whole directive with its arguments: width, precision and operand, in this order |
| `Directives.ArgumentsTaken` | release/cli/src/cli_console.c:378-506 | how many arguments each item takes |
| `Directives.CharacterInField` | release/cli/src/cli_console.c:423-431 | a character in its field, on the side that the flag asks for |
| `Directives.StringInField` | release/cli/src/cli_console.c:262-280 | a string up to its terminator, no more of it than the precision allows, in its field |
| `Directives.NullInField` | release/cli/src/cli_console.c:262-280 | a null pointer shows as <NULL>, cut and padded like a string |
| `Directives.PointerIsHex` | release/cli/src/cli_console.c:300-321 | a pointer is printed like %x, with eight digits if there is no width |
| `Directives.OthersPrint` | release/cli/src/cli_console.c:439-484 | %n prints nothing, two percent signs one, and an unknown conversion is printed as it stands |
| `Directives.CountStored` | release/cli/src/cli_console.c:446-456 | what %n stores is the length of the output in front of it |
| `Directives.AtoiIsDecimal` | release/cli/src/cli_console.c:24-32 | widths and precisions are read as decimal numbers |
| `Directives.PointAlone` | release/cli/src/cli_console.c:392-405 | a point without a number behind it means the precision zero |
| `Directives.LongLong` | release/cli/src/cli_console.c:407-417 | two l are one qualifier, for 64 bits |
| `Directives.SuffixSkipped` | release/cli/src/cli_console.c:442-444 | all letters and digits behind %p are passed over, and nothing behind another conversion |
| `Vsnprintf.SkipAtoi` | release/cli/src/cli_console.c:24-32 | the value of the digits, and where they end |
| `Vsnprintf.TakeFlags` | release/cli/src/cli_console.c:356-376 | each flag is set if and only if its character is in the run of flag characters |
| `Vsnprintf.TakeWidth` | release/cli/src/cli_console.c:378-390 | a width from the format or from the arguments, a negative one meaning left |
| `Vsnprintf.TakePrecision` | release/cli/src/cli_console.c:392-405 | a precision from the format or from the arguments, never negative once there is a point |
| `Vsnprintf.TakeQualifier` | release/cli/src/cli_console.c:407-417 | the qualifier, with ll read as L |
| `Vsnprintf.PutChar` | release/cli/src/cli_console.c:423-431 | the character in its field |
| `Vsnprintf.PutPointer` | release/cli/src/cli_console.c:300-321 | a pointer as a hexadecimal number, zero-padded to eight digits when no width is given |
| `Vsnprintf.Fetch` | release/cli/src/cli_console.c:486-504 | the 64-bit number that a conversion makes of its argument, by qualifier and signedness |
| `Vsnprintf.Convert` | release/cli/src/cli_console.c:422-506 | the switch over the conversion character |
| `Vsnprintf.Advance` | release/cli/src/cli_console.c:442-444 | where the next item begins, also behind a pointer suffix and at a trailing percent sign |
| `Vsnprintf.Vsnprintf` | release/cli/src/cli_console.c:323-521 | for every format and all arguments: terminates, puts out the text of each item in turn, stores the counts at %n, and returns the sum of the field lengths |
| `Strtoul.SimpleStrtoul` | release/cli/src/dvt_cmd.c:13-43 | the value modulo 2^32 of the longest run of digits behind the prefix, and where it ends |
| `Strtoul.ParsesBody` | release/cli/src/dvt_cmd.c:13-43 | digits of a base, read in that base, give their number modulo 2^32 and take no more of the text |
| `Strtoul.ParsesHex` | release/cli/src/dvt_cmd.c:19-24 | behind 0x the base argument does not matter |
| `Strtoul.CapitalStops` | release/cli/src/dvt_cmd.c:19-24 | a capital 0X ends the number behind its first zero |
| `Strtoul.LoneX` | release/cli/src/dvt_cmd.c:19-24 | an x without a digit behind it does not belong to the number |
| `PrintParse.PrintThenParse` | release/cli/src/cli_console.c:155-252 | for every number below 2^32, base, width, precision and flags that show no sign and no leading blanks: the text read back in its base gives the number and takes prefix and digits exactly, if and only if it has no capital 0X prefix |
| `PrintParse.PrintThenDetect` | release/cli/src/dvt_cmd.c:13-43 | with # and small letters, base 0 recovers the number if and only if it is not a decimal number above 7 with more precision than digits, or with zero padding in front |
| `PrintParse.OctalIsLess` | release/cli/src/dvt_cmd.c:26-31 | digits misread as octal denote a smaller number as soon as their decimal value is at least 8, and the same number below |
| `PrintParse.Shape` | release/cli/src/cli_console.c:217-251 | a printed number without sign and leading blanks is a prefix, zeros, digits and blanks |
| `Terminal.ShowText` | release/cli/src/dvt_shell.c:29-35 | printable bytes overwrite the cells from the cursor on and nothing else |
| `EditLine.PressKeeps` | release/cli/src/dvt_shell.c:336-452 | every key that is not for the history takes a terminal in step to a terminal in step |
| `EditLine.AddKeeps` | release/cli/src/dvt_shell.c:136-175 | so does an inserted or overwritten printable character, and the bell of a full line |
| `EditLine.RemoveKeeps` | release/cli/src/dvt_shell.c:364-414 | so do both kinds of delete |
| `EditLine.WipeKeeps` | release/cli/src/dvt_shell.c:354-362 | so does erasing the line from any cursor position |
| `EditLine.ReplaceKeeps` | release/cli/src/dvt_shell.c:433-444 | so does putting a line of the history in its place |
| `EditLine.EraseUndoesInsert` | release/cli/src/dvt_shell.c:398-414 | a character just inserted can be taken back |
| `Keys.MovingKeys` | release/cli/src/dvt_shell.c:336-397 | text, cursor and mode after the bytes 1, 2, 5, 6 and 15 |
| `Keys.CuttingKeys` | release/cli/src/dvt_shell.c:354-397 | text, cursor and mode after the bytes 4, 11, 21 and 24 |
| `Keys.ErasingKeys` | release/cli/src/dvt_shell.c:398-414 | the bytes 8, 127 and 255 take the character before the cursor away |
| `Keys.OtherKeys` | release/cli/src/dvt_shell.c:136-175 | any other byte is inserted at the cursor, or replaces the character there, unless the line is full |
| `Keys.StringAdded` | release/cli/src/dvt_shell.c:177-191 | a string added at the end of the line is appended in its order |
| `Keys.KeyTyped` | release/cli/src/dvt_shell.c:323-452 | each of these bytes, typed, changes the line in this way and nothing else |
| `Keys.OlderTyped` | release/cli/src/dvt_shell.c:416-445 | byte 16 shows the line before the one shown, with the cursor behind it, as long as there is one within reach |
| `Keys.NewerTyped` | release/cli/src/dvt_shell.c:416-445 | byte 14 shows the line after it, and behind the newest one an empty line |
| `Keys.VerticalArrows` | release/cli/src/dvt_shell.c:246-257 | the sequences of the arrows up and down act as the bytes 16 and 14 |
| `Keys.HorizontalArrows` | release/cli/src/dvt_shell.c:234-242 | those of the arrows right and left act as the bytes 6 and 2 |
| `Keys.HomeKeys` | release/cli/src/dvt_shell.c:244-284 | those with H and 2 act as byte 1 |
| `Keys.EndKey` | release/cli/src/dvt_shell.c:285-290 | that with 5 acts as byte 5 |
| `Escape.SavedStays` | release/cli/src/dvt_shell.c:225-277 | at most seven bytes are saved, always an escape byte, then [, then no final bytes; only a full buffer overflows |
| `Escape.Collects` | release/cli/src/dvt_shell.c:225-320 | up to four parameter bytes are collected, the fifth overflows the buffer, and the final byte gives the meaning of the sequence |
| `Session.ReceiveStaysSound` | release/cli/src/dvt_shell.c:214-454 | cursor <= length <= room, the saved bytes, the history position and the recalled lines stay in bounds whatever byte arrives |
| `Session.Type` | release/cli/src/dvt_shell.c:214-454 | the same over every stream of bytes |
| `StayInStep.RunInStep` | release/cli/src/dvt_shell.c:214-454 | after any stream of bytes with which the text stays printable, the terminal shows the edit buffer, blanks behind it, and the cursor at its place |
| `Strokes.SequenceRun` | release/cli/src/dvt_shell.c:225-320 | the bytes of a whole escape sequence that fits the buffer act as the one key it stands for, or do nothing |
| `Strokes.DroppedIff` | release/cli/src/dvt_shell.c:225-320 | a sequence of any length that stands for no key is dropped if and only if it has one to four parameter bytes |
| `Strokes.LongIsTyped` | release/cli/src/dvt_shell.c:268-318 | with a fifth parameter byte the buffer is full: the saved bytes are added to the line one after the other, and then the last of them acts as a key |
| `Strokes.FinalIsTyped` | release/cli/src/dvt_shell.c:262-277 | without a parameter byte its final byte is typed, with what a full line or overwriting makes of that |
| `Strokes.StrokesRun` | release/cli/src/dvt_shell.c:225-334 | a stream of characters, editing keys and escape sequences acts as those strokes one by one |
| `Strokes.StrokesInStep` | release/cli/src/dvt_shell.c:214-454 | from a printable line and history, any such strokes leave the text printable and the terminal in step |
| `Session.EnterStaysSound` | release/cli/src/dvt_shell.c:455-460 | the end of a line keeps the bounds |
| `Session.TypePlain` | release/cli/src/dvt_shell.c:136-175 | printable characters typed at the end of a line with room for them are its text |
| `Lines.LinesInStep` | release/cli/src/dvt_shell.c:199-463 | over any number of lines: while the next one is typed all bounds hold, text and history are printable and a fresh terminal line shows the text; each line joins the history when it ends unless it is empty or begins with an exclamation mark |
| `LineEditor.AddChar` | release/cli/src/dvt_shell.c:136-175 | buffer, cursor, length and echoed bytes are those of the specification; the memmove leaves no gap |
| `LineEditor.AddString` | release/cli/src/dvt_shell.c:177-191 | one character after the other |
| `LineEditor.GoHome` | release/cli/src/dvt_shell.c:109-114 | one backspace for each place of the cursor |
| `LineEditor.EraseLine` | release/cli/src/dvt_shell.c:116-125 | blanks to the end of the line and back |
| `LineEditor.RefreshLine` | release/cli/src/dvt_shell.c:128-134 | the rest of the line sent again |
| `LineEditor.DeleteKey` | release/cli/src/dvt_shell.c:364-379 | the character at the cursor is gone from the buffer |
| `LineEditor.EraseKey` | release/cli/src/dvt_shell.c:398-414 | the character before the cursor is gone from the buffer |
| `LineEditor.MoveKey` | release/cli/src/dvt_shell.c:336-352 | the keys that move, and the one that switches between insert and overwrite |
| `LineEditor.CutKey` | release/cli/src/dvt_shell.c:354-414 | the keys that take text away |
| `LineEditor.PressKey` | release/cli/src/dvt_shell.c:323-452 | the key switch but for escape and history |
| `LineEditor.RecallKey` | release/cli/src/dvt_shell.c:416-445 | a line of the history in place of the line, or the bell |
| `LineEditor.Matches` | release/cli/src/dvt_shell.c:279-290 | the comparison with a key name is decided before it could read past the name and its terminator |
| `LineEditor.TakeEscape` | release/cli/src/dvt_shell.c:225-320 | the nested switches of the escape decoder |
| `LineEditor.ActKey` | release/cli/src/dvt_shell.c:323-334 | the switch is reached only with no byte saved, so the arm that reports an impossible condition is dead |
| `LineEditor.ReceiveByte` | release/cli/src/dvt_shell.c:214-454 | one turn of the loop |
| `LineEditor.ReadLine` | release/cli/src/dvt_shell.c:199-463 | the whole function on any input: buffer, echo and history as the specification says; the terminator is stored inside the buffer if and only if the line leaves a cell for it, which for a buffer of exactly the given length means that it is not full |
| `LineEditor.FullLine` | release/cli/src/dvt_shell.c:799-813 | as many printable characters as the line takes do fill it |
| `Recall.RecallsInOrder` | release/cli/src/dvt_shell.c:65-85 | the j-th step back shows the j-th most recent line, up to the capacity less one; behind the last one nothing moves |
| `Recall.NewerUndoesOlder` | release/cli/src/dvt_shell.c:87-107 | a step forward undoes a step back, and the other way round |
| `Recall.ForwardAgain` | release/cli/src/dvt_shell.c:87-107 | as many steps forward as back end at the empty line |
| `History.History.constructor` | release/cli/src/dvt_shell.c:37-50 | no line recorded, no position |
| `History.History.AddToHist` | release/cli/src/dvt_shell.c:52-63 | the line is appended to the log that the ring stands for |
| `History.History.Prev` | release/cli/src/dvt_shell.c:65-85 | one step back in the log |
| `History.History.Next` | release/cli/src/dvt_shell.c:87-107 | one step forward in the log |
| `History.History.EndLine` | release/cli/src/dvt_shell.c:455-460 | the line is recorded unless it is empty or begins with an exclamation mark, and the position is the newest again |
| `Rings.StepBack` | release/cli/src/dvt_shell.c:73-80 | stepping back around a ring, with the wrap at zero |
| `ShellList.Shell.AddCommand` | release/cli/src/dvt_shell.c:552-585 | the list is acyclic and holds all commands in registration order, then all sub-shells in theirs |
| `ShellList.Shell.AddSubShell` | release/cli/src/dvt_shell.c:624-653 | the same for a sub-shell, which goes to the end |
| `ShellList.Shell.Splice` | release/cli/src/dvt_shell.c:579-580 | putting an item where a pointer to a pointer stands keeps the list linked and acyclic |
| `ShellList.SameEntries` | release/cli/src/dvt_shell.c:552-653 | nothing registered is lost or duplicated |
| `ShellList.Grown` | release/cli/src/dvt_shell.c:552-653 | registering one more entry puts it behind those of its kind |
| `BuildStep.SplitCustomBuildStep` | ecos-3.0/tools/src/libcdl/build.cxx:238-339 | the moving data pointer computes the specified triple or error for every input, also with a NUL inside |
| `BuildStep.RoundTrip` | ecos-3.0/tools/src/libcdl/build.cxx:238-339 | a triple comes back from its rendering if and only if it is in normal form |
| `BuildStep.SplitIsNormal` | ecos-3.0/tools/src/libcdl/build.cxx:238-339 | whatever is accepted is in normal form |
| `BuildStep.SplitIsStable` | ecos-3.0/tools/src/libcdl/build.cxx:238-339 | whatever is accepted can be rendered and split again without a change |
| `BuildStep.NoRulesExactly` | ecos-3.0/tools/src/libcdl/build.cxx:327-333 | the last error is reported exactly when nothing at all follows the separator |
| `BuildStepText.StepText` | ecos-3.0/tools/src/libcdl/build.cxx:238-339 | white space, a target, a colon, dependencies up to a semicolon or the end of the line, and rules are taken apart as such; blanks around them do not matter |
| `BuildStepText.TargetText` | ecos-3.0/tools/src/libcdl/build.cxx:238-300 | what makes a missing target text or a missing colon |
| `BuildStepText.DepsText` | ecos-3.0/tools/src/libcdl/build.cxx:300-326 | dependencies end at a semicolon or a newline; without anything behind that there are no rules |
| `BuildStepText.NoDepsText` | ecos-3.0/tools/src/libcdl/build.cxx:300-320 | a separator or the end right behind the colon makes missing dependencies |
| `BuildStepText.RuleText` | ecos-3.0/tools/src/libcdl/build.cxx:327-339 | each line of rules loses the blanks in front of it and nothing else |
| `BuildStepText.LastRuleText` | ecos-3.0/tools/src/libcdl/build.cxx:327-339 | the last line gets its end |
| `ConfigHeaders.Partition` | ecos-3.0/tools/src/libcdl/build.cxx:2108-2161 | each loadable that names a header is written exactly once |
| `ConfigHeaders.OpenedOnce` | ecos-3.0/tools/src/libcdl/build.cxx:2108-2114 | each header that somebody names is opened exactly once, and no other |
| `ConfigHeaders.OpenedInOrder` | ecos-3.0/tools/src/libcdl/build.cxx:2108-2114 | headers are opened in the order of their first occurrence |
| `ConfigHeaders.FileHolds` | ecos-3.0/tools/src/libcdl/build.cxx:2108-2161 | a header is written by exactly the loadables that name it |
| `ConfigHeaders.MembersInOrder` | ecos-3.0/tools/src/libcdl/build.cxx:2116-2161 | they write into it in their order |
| `ConfigHeaders.EntriesInOrder` | ecos-3.0/tools/src/libcdl/build.cxx:2045-2054 | the vector of loadables that define headers keeps their order |
| `ConfigHeaders.ListIsRight` | ecos-3.0/tools/src/libcdl/build.cxx:2191-2224 | the list behind system.h is exactly the headers generated, in order, if and only if no loadable has an empty header name or that one |
| `ConfigHeaders.GenerateConfigHeaders` | ecos-3.0/tools/src/libcdl/build.cxx:2108-2161 | the nested loops that blank what they have written produce these files with these members |
| `ConfigHeaders.GetConfigHeaders` | ecos-3.0/tools/src/libcdl/build.cxx:2191-2224 | the loop with the search produces the list |
| `ConfigHeaders.CollectEntries` | ecos-3.0/tools/src/libcdl/build.cxx:2045-2054 | the vector of loadables with their header names |
| `Repack.CommMsgPro` | release/cli/src/timer_debug.c:110-120 | for every word sequence and bit count: the count of full groups, each full byte its group plus 0xa0 modulo 256, the partial byte without it, the rest untouched |
| `Repack.RepackIsLossless` | release/cli/src/timer_debug.c:110-120 | a decoder that subtracts 0xa0 recovers every bit of every full group |
| `Repack.GroupBit` | release/cli/src/timer_debug.c:116-117 | each bit of a group is the source bit that went in |
| `RepackNumbers.BitOfWord` | release/cli/src/timer_debug.c:116 | bit n of a word, from the left, is the binary digit of its value with the weight 2^(31-n) |
| `RepackNumbers.RepackDivides` | release/cli/src/timer_debug.c:114-120 | read as one number in base 128, the full bytes less 160 are the words, read as one number in base 2^32, divided by the weight of the bits that are left |
| `RepackNumbers.PartialByte` | release/cli/src/timer_debug.c:114-120 | the last byte, if it is not full, has its bits at the top of the low seven |
| `TraceRing.Trace.constructor` | ecos-3.0/tools/src/infra/trace.cxx:140-141 | no valid entry |
| `TraceRing.Trace.Write` | ecos-3.0/tools/src/infra/trace.cxx:170-346 | the writers append one event to the log that the ring stands for |
| `TraceRing.Trace.TraceNoMsg` | ecos-3.0/tools/src/infra/trace.cxx:170-196 | the event without a message, all data zero |
| `TraceRing.Trace.TraceMsg` | ecos-3.0/tools/src/infra/trace.cxx:198-346 | the event with its arguments, the unused data zero |
| `TraceRing.Trace.Callback` | ecos-3.0/tools/src/infra/trace.cxx:659-678 | puts out the newest events, newest first, as many as there are or fit |
| `TraceRing.NewestAt` | ecos-3.0/tools/src/infra/trace.cxx:659-678 | that is min(events, size) of them, each once, the j-th being the j-th newest |

## Left out

- CdlToplevel.Toplevel: nodes are identities and the fields of all nodes are maps held by the toplevel object, so that aliasing between node objects and the allocation of nodes are not captured; the updates in place and their order are.
- CdlBackwards.ReverseCancelIff: the nodes with conflicts are a parameter for each cancellation; that none of them stands directly below the toplevel before the unloads is a condition, because conflicts are not part of the state.
- CdlToplevel.Toplevel.UpdateHandler: the conflict objects for a destination that is no container or would make a cycle are an outcome that is returned; the active status, which the handler also updates, is not part of this model.
- CdlToplevel.Toplevel.UpdateProperty: Unresolved conflicts are not objects here; the nodes that have one are a parameter of CdlBind.Bind, and what a conflict stands for, a parent property that is not bound, is part of the state.
- CdlToplevel.Toplevel.Unbind: the elimination of the conflicts of the loadable at its end.
- CdlBind.Bind: the Init updates and the active status at its end; only parent properties are modelled, so that each node has at most one property to bind.
- CdlBind.Bindable: that no parent property names its own node is checked when a loadable is read (`check_properties`), and is a condition for binding it here.
- The transaction, inference and value-propagation engine, the Tcl interpreter and its channels: a property update is a direct call of the handler, and a save file is a list of commands with their words.
- SavefileToplevel.Toplevel.HandleCommand: a declaration with too few words and an invalid Tcl list raise errors in the interpreter, which is not modelled.
- `cleanup_orphans`, whose interesting branch is not implemented, and the cookies, assertions and report macros of libcdl.
- Printer.Number: a width or precision so large that C integer arithmetic on it overflows is not modelled; neither is the temporary buffer's size, which TextIsCanonical shows to suffice for decimal.
- Vsnprintf.Vsnprintf: the output is an unbounded sequence and the arguments are a sequence without types; the bounded variant of ADDCH, `va_list` and the UART are left out. Words are those of a 32-bit machine.
- Vsnprintf.SkipAtoi: numbers in a format that overflow a C int are not modelled.
- LineEditor.ReadLine: the room must be positive; with no room the unsigned comparison in `cread_add_char` would never find the line full. Bytes come from a sequence; waiting for one is its end. What a store behind the buffer does is not modelled: the line then ends without being recorded.
- C99.StandardText: the directives d, i, o, u, x and X with the qualifiers that the console knows; hh and j are unknown to it, and floating point is not implemented. The standard leaves the flag # undefined for d, i and u and does not have L and Z for integers; there the console is taken at its word.
- StayInStep.RunInStep: the terminal line does not wrap, and control characters that are typed as text are not interpreted, so that the claim is made while the text stays printable.
- History.History.AddToHist: the size of a history buffer is not modelled; Session.ReceiveStaysSound shows that recalled lines fit the edit buffer.
- ShellList.Shell.AddSubShell: the parent pointer of the new sub-shell, the copies of the strings and the lookup of commands are left out.
- ConfigHeaders.GenerateConfigHeaders: what is written into a file, and the comparison with the old one, are left out; only which loadable writes into which file, and in what order.
- Repack.CommMsgPro: the second loop, which compares the bytes with a test pattern and prints, is left out, as are the shared counters when several threads use them.
- TraceRing.Trace.Callback: how an entry is turned into text, the installation of the callback and several threads are left out.
- The driver tests, thread demonstrations, register tables and generated headers: hardware access or constants.
