# simple_vue reactivity and template binding, in Dafny

simple_vue is a small MVVM library. It has two cooperating pieces:

- **Observation.** `observe` walks a data object and turns every own property into a
  reactive slot: an accessor pair that closes over the value and a `Dep` (a subscriber list).
  Reading a slot while a `Watcher` is evaluating (`Dep.target` set) subscribes that watcher to
  the slot's `Dep`. Writing a different value stores it, observes it, and makes the `Dep` call
  `update` on every subscriber. A `Watcher` re-evaluates its getter and calls its callback
  with `(new, old)` when the result is no longer `===` the stored one.
- **Compilation.** The template compiler reads `v-` directive attributes and `{{ … }}`
  mustaches. For each one it renders the current value into the DOM once, then creates a
  watcher whose callback re-renders.

The model is a functional state machine. A `State` holds:

- the object heap, where each own property is plain or a reactive slot with its Dep id;
- the Dep table and the Watcher table;
- the single `Dep.target` slot;
- the log of watcher callbacks;
- the rendered string of every bound DOM property (a "view").

Every operation is a pure function from one state to `Result<State, Error>`. Exceptions the
code can throw are `Failure`s. The compiler's string logic (directive names, event types,
the mustache regular expression, the updaters) consists of pure functions on `seq<char>`.

Modules and files:

| file | module | source |
|---|---|---|
| wrappers.dfy | Wrappers | `Option`, `Result` |
| seqs.dfy | Seqs | `indexOf`, subsequences |
| text.dfy | Text | `split`, `trim`, `\s` |
| values.dfy | Values | JavaScript values, truthiness, `String(v)` |
| store.dfy | Store | the state and its invariants |
| dep.dfy | Deps | `Dep.addSub`, `Dep.removeSub`, `Watcher.addDep` |
| observer.dfy | Observer | `observe`, `walk`, `defineReactive` and its getter |
| paths.dfy | Paths | member reads, the parsed getter, the strict path walk |
| updater.dfy | Updaters | the `updater` functions |
| watcher.dfy | Watchers | `Watcher`: `parseGetter`, `get`, `run`, the constructor |
| propagation.dfy | Propagation | `Dep.notify` and the setter of `defineReactive` |
| compile.dfy | Compile | directive classification, attribute handling, the mustache |
| binding.dfy | Binding | `_getVMVal`, `_setVMVal`, `bind`, `model` |
| mount.dfy | Mount | `compile(node)` with the effects of its handlers |

### Two facts about the code that the model follows

- **Mustache.** The regular expression `/\{\{(.*)\}\}/` is greedy. It captures from the first
  `{{` that has a match to the last `}}` on the same line. `Compile.Mustache` states exactly
  that.
- **Wrapping an object twice.** Slots are defined with `configurable: false`, so redefining
  one throws a TypeError. Writing an object that is already observed into a slot therefore
  throws while the setter observes it again. `Observer.DefineReactive` fails with
  `RedefineError` on a slot that is already reactive.

## Model

| member | source | states |
|---|---|---|
| Observer.Observe | simple_vue/src/observer.js:55-61 | A falsy or non-object value is left untouched and yields no Observer. Observation throws only on a redefinition or when the stack runs out. An object already holding a slot throws, and so does any object once no stack is left. An object whose own properties are all plain primitives is observed whenever any stack is left. After a successful observation every own key is a reactive slot, with its own new Dep numbered between the Dep counter before and after; distinct keys get distinct Deps. Every object reachable from it within the remaining stack depth is fully reactive too (`DeepReactive`). No value on the heap changes, and nothing outside the heap and the Dep table changes. |
| Observer.Walk | simple_vue/src/observer.js:14-18 | Walking a key that is already a slot throws, and only a redefinition or a stack overflow can. A walk over distinct keys that all hold plain primitives succeeds. Every key walked becomes a slot with a Dep created during the walk. The Dep ids increase strictly in key order, because they come from one counter. Every object value of a walked key is reactive to the depth left (`KeyDeep`). |
| Observer.DefineReactive | simple_vue/src/observer.js:27-34 | The Dep is created before the value is observed, so it takes the next id. The key becomes a slot over its unchanged value with that Dep. An object value has been observed to the depth left by then. For a primitive value it succeeds exactly when the key is not yet a slot, and then no other property changes. The only exceptions are a redefinition and a stack overflow. |
| Observer.NewDep | simple_vue/src/observer.js:68-72 | A new Dep takes the current counter value as its id, starts with no subscribers, and advances the counter. |
| Observer.MakeSlot | simple_vue/src/observer.js:34-36 | The property becomes a reactive slot over its current value. No value changes, no key is added or removed, and every existing slot keeps its Dep. |
| Observer.ReadProp | simple_vue/src/observer.js:37-42 | A slot read returns the stored value. With no `Dep.target`, or on a non-reactive property, the state is unchanged. Otherwise only the target watcher joins, and only the slot's own Dep. |
| Observer.ReadPropKeepsInv | simple_vue/src/observer.js:37-42 | A read keeps every state invariant: subscribers are known watchers, no Dep lists a watcher twice, and `depIds` match subscriber lists. |
| Observer.GrowsKeepsObserved | simple_vue/src/observer.js:31 | Observing more objects never undoes an earlier observation: a fully reactive object stays fully reactive. |
| Observer.GrowsKeepsDeep | simple_vue/src/observer.js:31 | Observing more objects never undoes reactivity to any depth: an object reactive to depth `n` stays so. |
| Observer.GrowsKeepsInv | simple_vue/src/observer.js:27-31 | Observation keeps every state invariant. |
| Deps.AddSub | simple_vue/src/observer.js:75-77 | `addSub` appends the subscriber at the end and keeps the rest. |
| Deps.RemoveSub | simple_vue/src/observer.js:84-89 | Removing an absent subscriber leaves the list unchanged. Removing a present one shortens the list by one. |
| Deps.FirstPos | simple_vue/src/observer.js:85 | `indexOf` of a present subscriber, computed with `Seqs.IndexOf`, is the position of its first occurrence. |
| Deps.RemoveSubSplices | simple_vue/src/observer.js:84-89 | `removeSub` cuts out exactly the first occurrence. The other subscribers keep their order. |
| Deps.RemoveSubMultiset | simple_vue/src/observer.js:84-89 | `removeSub` removes one copy of the subscriber and nothing else. |
| Deps.RemoveAfterAdd | simple_vue/src/observer.js:75-89 | `removeSub` undoes an `addSub` of a subscriber that was not yet in the list. |
| Deps.AddDep | simple_vue/src/watcher.js:42-48 | A watcher joins a Dep, at the end of its list, exactly when `depIds` does not yet record that Dep, and the Dep id is then recorded. Nothing else changes. |
| Deps.AddDepIdempotent | simple_vue/src/watcher.js:42-48 | A second `addDep` of the same Dep changes nothing, so a watcher joins a Dep at most once. |
| Deps.AddDepKeepsInv | simple_vue/src/watcher.js:42-48 | `addDep` keeps subscriber lists free of duplicates and consistent with `depIds`. |
| Deps.RecordedSubscribed | simple_vue/src/watcher.js:42-48 | Because `addDep` records a Dep id exactly when it subscribes, every Dep a watcher records lists that watcher. |
| Deps.AddDepJoined | simple_vue/src/observer.js:80-82 | `depend` is `Dep.target.addDep(this)`. It is one step of the relation "the target watcher joined some new Deps and nothing else changed". |
| Watchers.ParseGetter | simple_vue/src/watcher.js:61-73 | There is no getter exactly when some character is outside `[A-Za-z0-9_.$]`. Otherwise the getter is over the `.`-separated pieces, which contain no `.` and join back to the expression. |
| Watchers.ReadMember | simple_vue/src/watcher.js:69 | `obj[key]` inside a getter returns the heap's value and throws exactly on `undefined` or `null`. Its only effect is that the target watcher joins Deps. |
| Watchers.EvalPath | simple_vue/src/watcher.js:66-72 | The parsed getter returns `PathValue`, stopping at `undefined` on any falsy value. Its only effect is that the target watcher joins exactly the Deps of the slots the walk reads up to that point (`PathDeps`), and its `depIds` grow by exactly those. |
| Watchers.EvalStrict | simple_vue/src/watcher.js:52 | A getter function `vm => vm.p.q` is the strict walk. The target watcher joins exactly the Deps of the slots it reads (`StrictDeps`), and nothing else changes. |
| Watchers.Evaluate | simple_vue/src/watcher.js:52 | Calling the getter yields `GetterValue`, and a missing getter throws. On success the target watcher has joined exactly the Deps `GetterDeps` names. |
| Watchers.Get | simple_vue/src/watcher.js:50-55 | The getter runs with this watcher as `Dep.target`, and the target is cleared afterwards. The value is the getter's. Only this watcher has joined Deps: its `depIds` grow by exactly `GetterDeps`, and it is in the subscriber list of every one of those Deps. |
| Watchers.Fire | simple_vue/src/watcher.js:38 | The callback `(new, old)` is logged. A bound view is re-rendered with its updater from its current string. |
| Watchers.Run | simple_vue/src/watcher.js:33-40 | `run` succeeds exactly when the getter does. If the new value is not `===` the stored one, the value is stored and exactly one event `(new, old)` is logged, with the view re-rendered. If it is `===`, the stored value, the log and the views are unchanged. The watcher's `depIds` grow by exactly the Deps its getter reads. The heap and the other watchers are unchanged either way. |
| Watchers.RunTwice | simple_vue/src/watcher.js:33-40 | A second `run` with no write in between logs nothing. Two runs produce at most one callback. |
| Watchers.NewWatcher | simple_vue/src/watcher.js:14-27 | The constructor takes the next id and evaluates the getter exactly once, storing the result as the value. It succeeds exactly when the getter does, and otherwise fails with a TypeError. The new watcher records exactly the Deps its getter reads, and is appended at the end of exactly those Deps' subscriber lists; every other list is unchanged. It calls no callback and leaves other watchers unchanged. |
| Paths.Member | simple_vue/src/compile.js:164 | `val[k]` throws exactly on `undefined` and `null`. On an object it is the own property's value. |
| Paths.PathValueVsStrict | simple_vue/src/watcher.js:66-72 | The parsed getter and the strict walk of `_getVMVal` agree exactly when no value on the way is falsy. Otherwise the parsed getter gives `undefined`. |
| Paths.StrictPathAppend | simple_vue/src/compile.js:160-167 | Walking `p + q` is walking `p`, then `q`. |
| Paths.StrictPathFrame | simple_vue/src/compile.js:160-167 | A walk depends only on the properties it reads. |
| Propagation.Notify | simple_vue/src/observer.js:92-96 | `notify` runs `update` on each subscriber in list order. It succeeds exactly when every subscriber's getter succeeds on the heap, and fails only with a TypeError. The heap is unchanged. The log grows by exactly the reference event list `ExpectedEvents`, and the views are exactly those the callbacks of those events draw (`Redraw`). Each subscriber run holds its getter's value on the heap, watchers outside the list are untouched, and subscriber lists only grow. The invariants hold and the target is clear. |
| Propagation.RunNotified | simple_vue/src/watcher.js:29-40 | One `update` is the notification of a one-element list. |
| Propagation.NotifiedTrans | simple_vue/src/observer.js:92-96 | Notifying the first subscriber and then the rest is notifying the whole list: logs, views and watcher values compose. |
| Propagation.RedrawAppend | simple_vue/src/observer.js:92-96 | The views after two runs of callbacks are the views after the first run, redrawn for the second. |
| Propagation.RedrawFrame | simple_vue/src/watcher.js:38 | What a callback draws depends only on which view it is bound to, not on the values watchers hold. |
| Propagation.ExpectedEventsOf | simple_vue/src/watcher.js:33-40 | Every callback of a watcher during a notification reports its getter's new value against its stored value. There is such a callback whenever the watcher is subscribed and the value is not `===` the stored one. |
| Propagation.ExpectedEventsOrdered | simple_vue/src/observer.js:92-96 | The watchers whose callbacks fire are a subsequence of the subscriber list, in that order. Every event reports a value that is not `===` the old one. |
| Propagation.WriteValue | simple_vue/src/compile.js:177 | `obj[k] = v` changes that property only. A slot keeps its Dep, and a missing key is appended to the key order. |
| Propagation.WriteKeepsInv | simple_vue/src/observer.js:47 | Storing a value keeps every invariant. |
| Propagation.SetProp | simple_vue/src/observer.js:43-51 | Writing a value `===` to the slot's value changes nothing and notifies nobody. Writing a different primitive succeeds exactly when every subscriber's getter succeeds on the new heap, and can fail only with a TypeError. Writing an object that already holds a slot throws a redefinition or stack overflow. A different value is stored under the slot's original Dep and, if it is an object, observed to the full stack depth. The subscribers as of before the write run in order against the new heap: the log gains exactly their events, the views are redrawn by exactly their callbacks, and each holds its getter's new value. Every other property keeps its value and subscriber lists only grow. Writing a plain or missing property notifies nobody and changes no watcher or view. |
| Propagation.TwoWrites | simple_vue/src/observer.js:43-51 | Two writes in a row to `vm.k`, watched by `{{ k }}`: after the first the watcher holds the first value, and the second calls its callback exactly with `(second, first)`, once. |
| Propagation.WriteStores | simple_vue/src/observer.js:47-50 | After a write to a slot, a subscriber that reads it holds the value written and is still subscribed. |
| Propagation.WriteCallsBack | simple_vue/src/watcher.js:36-38 | A write that changes what a subscriber reads calls it back with `(new, stored)`, and with nothing else. |
| Propagation.WriteRenders | simple_vue/src/compile.js:139-142 | When the only subscriber renders a view, a write re-renders that view with its updater from the previous string. A text binding of a string then shows that string. |
| Propagation.SoleReaderWrite | simple_vue/src/observer.js:43-51 | A new primitive written to a slot whose one subscriber has a parsed path getter always succeeds, because such a getter never throws. |
| Compile.DirectiveParts | simple_vue/src/compile.js:57 | A directive's name splits on `-` into `v` and at least one more piece. |
| Compile.DirectiveName | simple_vue/src/compile.js:57 | The directive name is the longest run of characters after `v-` that contains no `-`. |
| Compile.EventType | simple_vue/src/compile.js:147 | The event type is `undefined` exactly when there is no `:`. Otherwise it is the text between the first `:` and the next one. |
| Compile.LookupMethod | simple_vue/src/compile.js:148 | `vm.$options.methods && vm.$options.methods[exp]` is `undefined` when there is no `methods` option. Otherwise an own method is found first. Failing that, it finds a function exactly for the function members of `Object.prototype`, and finds the prototype object itself exactly for `__proto__`. |
| Compile.EventActions | simple_vue/src/compile.js:146-153 | `eventHandler` attaches at most one listener. It attaches one, for the event type and the handler name, exactly when the type is non-empty and `methods[exp]` finds a function, own or inherited from `Object.prototype`. It throws a TypeError exactly when the type is non-empty and the lookup finds `Object.prototype` itself (`__proto__`), which has no `bind`. With no `methods` option it attaches nothing. |
| Compile.HandlerActions | simple_vue/src/compile.js:95-143 | `text`, `html` and `class` bind with their own updater. `model` binds with the model updater and then attaches its input listener. `bind` binds with no updater. The names in `Throwing` throw TypeError and every other name does nothing. |
| Compile.HandlersAreNotEvents | simple_vue/src/compile.js:59-63 | No handler name starts with `on`, so the event test never hides a handler. |
| Compile.DirectiveActions | simple_vue/src/compile.js:59-63 | An `on…` directive attaches a listener exactly when its event type is non-empty and the handler lookup finds a function, throws a TypeError when the lookup finds the prototype object, and otherwise does nothing. `text`, `html`, `class`, `model` and `bind` each do what their handler does. The throwing `compileUtil` names throw TypeError, and every other name does nothing. |
| Compile.InheritedHandlers | simple_vue/src/compile.js:146-153 | `v-on:click="__proto__"` throws a TypeError, `v-on:click="toString"` attaches a `click` listener, and a name that is neither an own method nor inherited does nothing. With no `methods` option even `toString` gets no listener. |
| Compile.AttrActions | simple_vue/src/compile.js:51-64 | An ordinary attribute does nothing. A directive throws exactly when its directive name and value make it throw (`DirectiveThrows`): an event directive whose handler lookup finds the prototype object, or a throwing `compileUtil` entry. It then throws a TypeError. Every action it produces uses the attribute's value, as the expression or as the handler name. |
| Compile.DirectiveAttr | simple_vue/src/compile.js:53-64 | An attribute `v-<d>`, where `d` holds no `-`, acts as directive `d` with the attribute's value as its expression. |
| Compile.Kept | simple_vue/src/compile.js:66 | No directive attribute survives `compile`. |
| Compile.KeptInOrder | simple_vue/src/compile.js:49-69 | Every ordinary attribute stays, in its original order. |
| Compile.CompileAttributes | simple_vue/src/compile.js:49-69 | The dispatch of the loop over the copied attribute list, before any handler's binding runs. It gets past every attribute exactly when no name reaches a throwing `compileUtil` entry. It keeps the non-directive attributes and collects every directive's actions in attribute order. |
| Compile.ActionsCons | simple_vue/src/compile.js:51 | The actions of an attribute list are those of its first attribute followed by those of the rest. |
| Mount.RunActions | simple_vue/src/compile.js:131-153 | The actions run in order, and the first that throws ends the run, with a TypeError. Every event listener asked for is attached. Binding never writes the data. |
| Mount.RunAction | simple_vue/src/compile.js:103-153 | A binding action succeeds exactly when `bind` does, and leaves the state `bind` produced and no listener. The `v-model` listener action succeeds exactly when `_getVMVal` does, and attaches one input listener holding the value read, with the state unchanged. An event action attaches its listener. |
| Mount.RunActionsAppend | simple_vue/src/compile.js:51-68 | Running two lists of actions one after the other is running their concatenation. |
| Mount.MountAttrs | simple_vue/src/compile.js:49-69 | `compile(node)` with its effects: each directive's handler runs before the next attribute is looked at. The first exception, from a handler or from its binding, ends the compilation with a TypeError. Success means no handler threw. The data is never written. |
| Mount.MountIsCompileThenRun | simple_vue/src/compile.js:49-69 | When no name reaches a throwing entry, compiling an element is running the actions `Compile.Actions` collects, in order. The exceptions that binding throws are kept. |
| Mount.MountStopsAtThrow | simple_vue/src/compile.js:51-68 | A handler that throws at some attribute ends the compilation with a TypeError, and the attributes after it are never looked at. |
| Mount.ModelIsBindModel | simple_vue/src/compile.js:103-117 | The actions of `v-model` are `model`: the binding with the model updater, then the input listener holding the value read. |
| Mount.SumThrows | simple_vue/src/watcher.js:52-62 | `<p v-text="a+b">` throws a TypeError: `a+b` is not a path, so the watcher has no getter, and its first evaluation calls `undefined`. |
| Compile.MatchOnLine | simple_vue/src/compile.js:35 | A match from a `{{` ends at some `}}` that lies wholly on the same line. |
| Compile.MatchSpan | simple_vue/src/compile.js:35 | The match found is the leftmost one, and for that start the longest (greedy `.*`). |
| Compile.Mustache | simple_vue/src/compile.js:35-40 | A text node is bound exactly when the regular expression matches. The bound expression is the capture of the leftmost, greedy match. |
| Compile.TextActions | simple_vue/src/compile.js:39-40 | A text node with a mustache gets exactly one text binding, of the capture. |
| Updaters.ContentUpdate | simple_vue/src/compile.js:185-191 | The text, html and model updaters render `undefined` (and `null`, through the DOM) as the empty string, and anything else as its string. |
| Updaters.ClassUpdate | simple_vue/src/compile.js:193-200 | The result always ends with the new value's string. It starts with the class name minus the first occurrence of the old value and one trailing whitespace character. Exactly one separating character, a space, is inserted, and exactly when both parts are non-empty. |
| Updaters.ClassSwap | simple_vue/src/compile.js:193-200 | A class name `c + " " + old` becomes `c + " " + new`. |
| Updaters.Update | simple_vue/src/compile.js:184-200 | For text, html and model, the view becomes the value's DOM string: "" for `undefined` and `null`, and the string itself for a string. For class, the view is exactly what `classUpdater` makes (`ClassUpdate`): the old class name stripped of the old value, then one space when both parts are non-empty, then the new value's string. |
| Binding.GetVMVal | simple_vue/src/compile.js:160-167 | `_getVMVal` throws only TypeError. An expression without `.` reads that own property of `vm`. |
| Binding.SetVMVal | simple_vue/src/compile.js:169-180 | The owner path is walked strictly. An `undefined` or `null` owner throws, and a primitive owner silently drops the write. On an object, the last key holds the new value afterwards and every other property keeps its value. |
| Binding.SetThenGet | simple_vue/src/compile.js:160-180 | `_getVMVal` after `_setVMVal` on the same expression returns the value written, unless the owner path itself runs through the key written. |
| Binding.BindWith | simple_vue/src/compile.js:131-143 | `bind` renders once with the updater when there is one, then creates the watcher, whose callback re-renders that view. It succeeds exactly when both reads succeed. The new watcher is appended to exactly the subscriber lists of the Deps its getter reads. The heap and the log are unchanged. |
| Binding.Bind | simple_vue/src/compile.js:136 | As written, the first render shows `_getVMVal` of the untrimmed expression, while the watcher holds the getter value of the trimmed one. It fails exactly when one of the two reads throws, and then with a TypeError. The new watcher joins exactly the Deps its getter reads. The data is not written. |
| Binding.BindCallback | simple_vue/src/compile.js:139-142 | The watcher's callback re-renders the bound view exactly when the directive has an updater, and then with that directive's updater. |
| Binding.KeyGetter | simple_vue/src/watcher.js:61-73 | The watcher of a plain key such as `msg` (no `.`, no whitespace) reads that one property of `vm`, never throws, and reads only that property's Dep. |
| Binding.BindSubscribes | simple_vue/src/compile.js:131-143 | Binding a plain key that is a reactive slot always succeeds. The new watcher is appended to that slot's subscriber list and was not in it before. It reads the key, holds its value, and carries the binding's callback. |
| Binding.BoundViewFollows | simple_vue/src/compile.js:131-143 | After binding a slot no one watched yet, writing a new primitive to it succeeds and re-renders the bound view with the directive's updater from the value first rendered. |
| Binding.BoundTwoWrites | simple_vue/src/compile.js:139-142 | After binding a slot, two writes of different values call the binding's callback back exactly with `(second, first)` during the second write. |
| Binding.BindUntrimmed | simple_vue/src/compile.js:136 | With `msg` = "hi", `{{ msg }}` first renders as "" while its watcher holds "hi". |
| Binding.BindTrimmed | simple_vue/src/compile.js:136 | The corrected `bind` renders `_getVMVal` of the trimmed expression. |
| Binding.BindTrimmedAgrees | simple_vue/src/compile.js:136-139 | With the trimmed read, the first render shows exactly the value the new watcher holds, whenever the expression parses and nothing on its path is falsy. |
| Binding.BindModel | simple_vue/src/compile.js:103-107 | `model` binds with the model updater and records the value it rendered as the listener's `val`. |
| Binding.OnInput | simple_vue/src/compile.js:109-117 | The input listener does nothing when the input equals the recorded value. Otherwise it writes the input back through `_setVMVal` and records it. |
| Binding.StaleModelGuard | simple_vue/src/compile.js:106-117 | `v-model="msg"` is bound, the user types "b", then the program sets `msg` to "a". The listener now holds "b", so typing "b" again changes nothing, and the data keeps "a". |
| Binding.OnInputFixed | simple_vue/src/compile.js:109-117 | The corrected listener compares with the data's current value and writes only when it differs. |
| Binding.InputFixedSyncs | simple_vue/src/compile.js:109-117 | After every input event handled by the corrected listener, `_getVMVal` returns the input's value, when the owner path reaches an object and does not itself read the key written. |
| Text.Split | simple_vue/src/compile.js:57 | `split` on one character yields at least one piece, and no piece contains the separator. |
| Text.JoinSplit | simple_vue/src/watcher.js:64 | Joining the pieces of a split gives the string back. |
| Text.SplitJoin | simple_vue/src/watcher.js:64 | Splitting a join of separator-free pieces gives the pieces back. |
| Text.Trim | simple_vue/src/watcher.js:23 | `trim` removes exactly the leading and trailing whitespace. |
| Text.StripTrailingSpace | simple_vue/src/compile.js:195 | `replace(/\s$/, '')` drops one final whitespace character, and only that. |

## Left out

- **DOM plumbing.** Left out because it is host API, not logic. This covers:
  - `querySelector`, `node2fragment`, `appendChild` and the recursive walk over `childNodes`;
  - node types and `addEventListener`.

  A listener is an `Action`, attribute removal is the list of kept attributes, and a DOM
  property is a view string.
- **mvvm.js.** The proxy from `vm.key` to `vm.$data.key`, computed properties and `$watch`
  are glue code. The model identifies `vm` with the root data object. `vm.$options.methods`
  is the set of its own method names, or absent; a lookup on it falls through to
  `Object.prototype` (`Compile.LookupMethod`).
- **Numbers.** Numbers are integers. Floating point, `NaN` (which is never `===` itself) and
  `String` of fractions are left out.
- **Arrays and the prototype chain.** Arrays and their mutation methods are left out. A member
  read on an object sees only its own properties. A member read on a string sees only `length`
  and index keys.
- **Partial state after an exception.** An exception ends the operation with a `Failure`, and
  the partial state it leaves is not modelled. Examples:
  - a getter that throws leaves `Dep.target` set;
  - the setter has already stored the value when observing it throws.
- **Re-entrancy.** A callback is a logged event plus a view update. A callback that writes
  back into the data, and so notifies recursively, is not modelled.
- **Nested evaluation.** `Watchers.Get`, `Watchers.Run` and `Propagation.SetProp` require
  that `Dep.target` is clear. A getter that starts another watcher's evaluation clobbers the
  single target slot, and that is not modelled.
- **Attribute-name case and key order.**
  - HTML lowercases attribute names. The model takes names as given and looks directive
    names up case-sensitively in `compileUtil`.
  - `Object.keys` puts integer-like keys first. The model keeps insertion order.
- **`compileUtil` lookups through `Object.prototype`.** Only the names in
  `Compile.Throwing` throw. Any other inherited name, such as `constructor`, is treated as
  harmless.
- Compile.EventActions: treats every own name in `methods` as a function. An own member that
  is not a function (`methods: { a: 1 }`) makes `fn.bind` throw in the source, and a falsy own
  member attaches nothing; the model holds only method names.
- **The `childObj` typo** (simple_vue/src/observer.js:49). It assigns an undeclared global.
  Only the observation of the new value is modelled.
- **String length and indexes.** `Paths.StrMember` counts a string's `length` and index keys in
  Unicode scalar values, while JavaScript counts UTF-16 code units: `"😀".length` is 2 there
  and 1 here. A path through a string with characters outside the Basic Multilingual Plane
  can therefore read a different member.
- **Element properties.** `Mount.PortOf` gives each element one view per DOM property it
  renders into. `textContent` and `innerHTML` share one, because both replace the element's
  content. Calling an event listener's method is not modelled: the listener is recorded.
- **Stack depth.** `Observer.Observe` takes a fuel argument, and the setter passes
  `Observer.StackLimit`. Observing data nested deeper than that, or cyclic data, fails with
  `StackOverflow` where the engine would overflow its stack at some other depth.
- **The live subscriber array.** `Propagation.Notify` iterates the subscriber list as it was
  when `notify` began. This is exact: `forEach` fixes the length when it starts, and during
  notification the list can only grow at its end.
- Observer.Observe: states success only for an object whose own properties all hold plain
  primitives. For nested or shared objects, success depends on the remaining stack depth and on
  whether an object is reached twice. Failure is always stated.
- Observer.Walk: states success only for distinct keys holding plain primitives, for the same
  reason.
- Binding.SetThenGet: requires that the path to the owner does not itself read the key
  written. With `vm.a === vm`, `_setVMVal(vm, 'a.a', v)` replaces `vm.a`, and the read-back
  then goes through `v`.
- Binding.InputFixedSyncs: carries the same owner-path requirement as `Binding.SetThenGet`.
- Binding.BindTrimmedAgrees: requires that nothing on the path is falsy. A falsy value on the
  way makes the parsed getter stop at `undefined` while `_getVMVal` reads on or throws, so the
  two can differ even after trimming.

## Findings

| source | as written | input that shows it | evidently intended | confidence | as-written member | corrected member |
|---|---|---|---|---|---|---|
| simple_vue/src/compile.js:136 | The first render reads `_getVMVal(vm, exp)` with the untrimmed expression. The watcher parses `exp.trim()` (simple_vue/src/watcher.js:23). | A text node `{{ msg }}` with data `msg: "hi"`. The capture is " msg ", so the node first shows "" while its watcher holds "hi". It stays "" until `msg` changes. | The first render shows the value the watcher holds. `bind` reads the trimmed expression, and `Binding.BindTrimmedAgrees` proves the two agree. | not executed | Binding.BindUntrimmed | Binding.BindTrimmed |
| simple_vue/src/compile.js:106-117 | The `v-model` listener compares the input with `val`. `val` is recorded at bind time and on each input, never on a programmatic change. | The data `msg` is "a". The user types "b" (written back, and `val` = "b"). The program sets `msg` to "a", and the input shows "a". The user types "b" again: `val === "b"`, so nothing is written, and the data keeps "a" while the input shows "b". | Every input that differs from the data is written back. `Binding.InputFixedSyncs` proves that the data then holds the input's value. | not executed | Binding.StaleModelGuard | Binding.OnInputFixed |
