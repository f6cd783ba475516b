# Task Manager (Kotlin console to-do list) in Dafny

This project models the in-memory task store of a small Kotlin console
program, `src/Main.kt`, and proves what it promises. The program keeps a list
of tasks (`Task(id, title, done)`) in a `TaskManager`. It hands out ids from a
counter that starts at 1. A menu loop reads a choice and runs one of four
handlers: add, remove, list, or toggle done.

Modules, one per concern of the source file:

- `options.dfy`, module `Options`: `Option`, standing for Kotlin's nullable types.
- `text.dfy`, module `Text`: the Kotlin library behaviour the program relies on.
  - `Char.isWhitespace` and `String.trim()`.
  - `Int.toString()` in a string template, with a parser that reads it back.
- `tasks.dfy`, module `Tasks`: the `Task` record and `Task.display`, with its inverse `ParseDisplay`.
- `store.dfy`, module `Store`: the class `TaskManager`.
  - Its fields are `tasks: seq<Task>` and `nextId: int`.
  - A ghost field `issued` holds every id handed out so far.
  - `Valid()` is the store invariant: ids increase along the list, are below
    `nextId`, and were all issued; titles are trimmed.
  - Specification functions on `seq<Task>` describe what the Kotlin collection
    calls do: `Without` for `removeIf`, `FirstIndex` for `firstOrNull`,
    `SetDone` for `markDone`, and `Toggled` for the toggle handler.
  - The scans themselves are `while` loops (`RemoveMatching`, `FindFirst`) proved against those functions.
- `console.dfy`, module `Console`: the `when` dispatch of `main`, the four
  handlers, one turn of the loop (`Step`) and the loop itself (`Run`).
  - Reads from the console become parameters. A `Request` holds the menu line
    (`None` at end of input), the title `readNonBlankLine` returned, and the
    id `readInt` returned.
  - Printed messages become report values.

Three behaviours of the code worth knowing:

- `TaskManager.add` does not reject a blank title. It stores the trimmed
  title, which may be empty. Only the Add handler, through `readNonBlankLine`,
  ensures a non-blank title, so `HandleAdd` requires one and `Add` does not.
- `list()` is a shallow `toList()`: the caller gets the store's own `Task`
  objects, not copies. The model's tasks are immutable values, so this sharing
  cannot be observed (see "Left out").
- `removeIf` removes every task with the id, not only the first. `Without`
  does the same. Under `Valid()` there is at most one such task (`WithoutExact`).

## Model

| member | source | states |
|---|---|---|
| `Text.IsWhitespace` | src/Main.kt:24 | the characters `Char.isWhitespace` accepts, which `trim` strips: tab to carriage return, U+001C to U+001F, the space separators (space, no-break space, U+1680, U+2000 to U+200A, U+202F, U+205F, U+3000) and the line and paragraph separators U+2028 and U+2029 |
| `Text.Trim` | src/Main.kt:24 | the trimmed string has no whitespace at either end and is no longer than its input |
| `Text.TrimCutsWhitespace` | src/Main.kt:24 | `trim` returns a contiguous slice of its input, and only whitespace lies before and after that slice |
| `Text.TrimIdempotent` | src/Main.kt:49-50 | trimming a line `readNonBlankLine` already trimmed changes nothing |
| `Text.TrimBlank` | src/Main.kt:49-51 | a line trims to the empty string exactly when every character is whitespace |
| `Text.TrimIdentity` | src/Main.kt:24 | a string with no whitespace at either end is its own trim |
| `Text.NatToString` | src/Main.kt:11 | the decimal form is non-empty, all digits, with no leading zero |
| `Text.IntToString` | src/Main.kt:11 | the rendering of an `Int` is digits, with a leading minus sign exactly for negative values |
| `Text.NatRoundTrip` | src/Main.kt:11 | parsing the decimal digits of a natural number gives that number back |
| `Text.IntRoundTrip` | src/Main.kt:11 | parsing the rendering of an integer gives that integer back |
| `Tasks.Display` | src/Main.kt:9-12 | the line `#`, the id in decimal, ` [`, ✓ if done and ✗ otherwise, `] `, then the title; `DisplayRoundTrip` and `DisplayInjective` state what it means |
| `Tasks.DisplayRoundTrip` | src/Main.kt:9-12 | the line `#id [✓/✗] title` can be read back into the same task: id, done flag and title |
| `Tasks.DisplayInjective` | src/Main.kt:9-12 | two tasks that display as the same line are the same task |
| `Store.Without` | src/Main.kt:30 | the tasks whose id differs, in the original order; `WithoutMember`, `WithoutConcat` and `WithoutExact` state what it means |
| `Store.FirstIndex` | src/Main.kt:38 | the index found holds the id and no earlier task does; there is none exactly when no task has the id |
| `Store.FindFirst` | src/Main.kt:38 | the linear scan of `firstOrNull` returns exactly `FirstIndex` |
| `Store.SetDone` | src/Main.kt:37-40 | length, ids and titles are kept; only the first task with the id gets `done == value`; every other task is unchanged |
| `Store.RemoveMatching` | src/Main.kt:30 | the scan of `removeIf` keeps exactly `Without(ts, id)`, and reports whether any task had the id |
| `Store.WithoutMember` | src/Main.kt:30 | a task survives removal exactly when it was stored and has a different id |
| `Store.WithoutAbsent` | src/Main.kt:29-32 | removing an id no task carries leaves the list unchanged |
| `Store.WithoutConcat` | src/Main.kt:30 | removal acts piecewise on a concatenation, so survivors keep their relative order |
| `Store.WithoutIncreasing` | src/Main.kt:29-32 | after a removal, ids still strictly increase in list order |
| `Store.WithoutExact` | src/Main.kt:29-32 | with unique ids: afterwards no task has the id; if one had it, exactly that task is gone and the rest are in order; otherwise nothing changed |
| `Store.WithoutKeepsWellFormed` | src/Main.kt:29-32 | `remove` keeps the store invariant, with the counter and the issued ids unchanged |
| `Store.AppendKeepsWellFormed` | src/Main.kt:22-27 | appending a trimmed task whose id is the counter keeps the invariant once the counter and the issued set advance |
| `Store.SetDoneKeepsWellFormed` | src/Main.kt:37-40 | `markDone` keeps the store invariant |
| `Store.FirstIndexSameIds` | src/Main.kt:38 | the first match depends only on the ids in the list |
| `Store.Toggled` | src/Main.kt:111-117 | the list after the toggle rule: the first task with the id gets the negation of its flag through `SetDone`; `ToggleFlips` and `ToggleTwice` state what it means |
| `Store.ToggleFlips` | src/Main.kt:111-117 | toggling an existing id negates the `done` flag of the first match and changes no other task |
| `Store.ToggleTwice` | src/Main.kt:111-117 | toggling an absent id changes nothing, and toggling the same id twice restores the list |
| `Store.TaskManager.constructor` | src/Main.kt:19-20 | a new store is empty, its counter is 1 and no id has been issued |
| `Store.TaskManager.Add` | src/Main.kt:22-27 | returns `Task(old nextId, trim(title), false)` with an id never issued before; the counter grows by one; the task is appended and earlier tasks are unchanged |
| `Store.TaskManager.Remove` | src/Main.kt:29-32 | returns whether some task had the id; the new list is `Without(old list, id)`; the counter and issued ids are unchanged |
| `Store.TaskManager.List` | src/Main.kt:34 | returns exactly the stored tasks in insertion order and changes nothing |
| `Store.TaskManager.MarkDone` | src/Main.kt:37-40 | returns whether a task with the id exists; the new list is `SetDone(old list, id, value)`; the counter is unchanged |
| `Store.TaskManager.IsEmpty` | src/Main.kt:42 | true exactly when no task is stored |
| `Console.Select` | src/Main.kt:127-135 | the branch of the `when` a trimmed token selects; `SelectTokens` states which tokens reach which branch |
| `Console.Dispatch` | src/Main.kt:126-135 | a null line reaches the else branch and any other line is trimmed and then matched by `Select`; `DispatchMenuKey`, `DispatchIgnoresPadding` and `DispatchCaseSensitive` state what it means |
| `Console.SelectTokens` | src/Main.kt:126-135 | exactly `5`, `q`, `Q`, `exit` select Exit, and exactly these and `1`..`4` are recognised |
| `Console.DispatchMenuKey` | src/Main.kt:126-131 | `1`..`5` select Add, Remove, List, Toggle and Exit |
| `Console.DispatchIgnoresPadding` | src/Main.kt:126 | the menu line is trimmed before matching, so surrounding whitespace does not matter |
| `Console.DispatchCaseSensitive` | src/Main.kt:126-135 | `EXIT` and `Exit` are unknown options, and so is end of input (a null line) |
| `Console.HandleAdd` | src/Main.kt:77-81 | given a trimmed non-blank title, appends `Task(old nextId, title, false)` with a fresh id |
| `Console.HandleRemove` | src/Main.kt:83-90 | an empty store reports nothing to remove; otherwise reports removed or not found by whether the id existed; the list becomes `Without(old list, id)` |
| `Console.HandleList` | src/Main.kt:92-102 | reports "no tasks" exactly when the store is empty; otherwise one line per task, each `Display` of that task, in insertion order |
| `Console.HandleToggleDone` | src/Main.kt:104-119 | an empty store reports nothing to update; an absent id reports not found; otherwise reports the negated flag of the first match; the list becomes `Toggled(old list, id)` |
| `Console.Effect` | src/Main.kt:126-135 | the store after one request: Add appends `Task(nextId, title, false)` and advances the counter; Remove gives `Without`; Toggle gives `Toggled`; List, Exit and unknown input leave list and counter alone |
| `Console.Step` | src/Main.kt:124-137 | continues unless the line selects Exit, keeps the store invariant, and leaves the list and counter as `Effect` says |
| `Console.ReplayCountsAdds` | src/Main.kt:124-137 | after a script, the counter has advanced by one per Add request |
| `Console.ReplayOnlyAdds` | src/Main.kt:124-137 | a script of Add requests appends one task per request, in request order, not done, with consecutive ids starting at the counter |
| `Console.SessionLength` | src/Main.kt:124-137 | the loop reads at most the whole script, and all of it unless it exits |
| `Console.SessionStopsAtFirstExit` | src/Main.kt:131-134 | the loop exits exactly when some request selects Exit, and it stops at the first such request |
| `Console.Run` | src/Main.kt:121-138 | runs requests until Exit as `Session` describes, keeps the store invariant, leaves list and counter as `Replay` of the requests read, and advances the counter once per Add request read |

## Left out

- Console output is not modelled. This covers `print`/`println`, `showMenu`
  (src/Main.kt:66-74) and the text of every handler message. Handlers return
  report values instead. `HandleList` returns its `Display` lines, without the
  header line.
- The retry loops of `readNonBlankLine` and `readInt` (src/Main.kt:46-64) are
  not modelled. They read stdin, and at end of input they never return. Their
  results are parameters. The title must be non-empty with no whitespace at
  either end. The id is any integer.
- `String.toIntOrNull` is not modelled: integer parsing is library behaviour.
  `ParseInt` only reads back what `IntToString` writes.
- Run: the loop in `main` runs forever. The model runs a finite script of
  requests and stops at Exit or at the end of the script. The source, once
  input is closed, would read null lines forever and print "Unknown option"
  each time.
- Store.TaskManager.Add: does not model 32-bit wrap-around of `nextId++`. The
  counter and the ids are unbounded, while the Kotlin `Int` wraps after
  2^31-1 adds.
- Sharing through `list()` is not modelled. The returned list holds the
  store's own mutable `Task` objects. `Task` is an immutable value here, so
  changes made through a snapshot cannot be expressed.
- `Text.IsWhitespace` follows the JVM's classification as a fixed list of
  characters. It does not follow Unicode version changes: U+180E counted as
  a space before Unicode 6.3. Kotlin trims UTF-16 code units, while Dafny
  strings hold Unicode scalar values. The two agree because every whitespace
  character is in the Basic Multilingual Plane.
