# QuadViewAnalyzer core logic in Dafny

This project models four small components of QuadViewAnalyzer, a desktop viewer for
MATLAB `.mat` signal logs, and proves properties of them. The rest of the application is
Qt windows and plumbing.

- **Colour allocator** (`colormap.dfy`, module `Colormaps`). This is the `Colormap` class
  that hands plot colours to signals.
  - It has four predefined colormaps (tab10, set3, tab20, fof20), held as hex strings.
  - Colours come from a pool front-first. An item keeps its colour until it releases it.
  - A released colour returns to the front of the pool.
  - Once the pool is empty, colours are reused cyclically by index.
  - The class keeps its fields (`availableColors`, `colorsInUseByItem`, ...) and its methods
    update them in place. Each method is tied to a function on values: `Acquire` for
    get_color and `Release` for release_color. The lemmas prove what those functions
    promise.
  - The main invariant holds as long as no colour has been handed out by cycling: free
    colours plus held colours account for the colormap exactly once, and no two items hold
    the same colour. A ghost flag `cycled` records whether cycling has happened.
- **MAT struct-to-dict conversion** (`matloader.dfy`, module `MatLoader`, and
  `sortkeys.dfy`, module `CaseInsensitiveSort`).
  - `loadmat` drops the three metadata keys. `_check_keys` visits the remaining keys in
    case-insensitive order and replaces every struct value by a dict.
  - `_todict_iterative` builds that dict with an explicit stack of (dict, struct) pairs. It
    inserts each struct's fields in case-insensitive sorted order.
  - `Convert` is the recursive specification. `ToDictIterative` keeps the source's
    work-list and is proved equal to it. It is also proved to pop each struct node exactly
    once.
  - The source fills nested dicts through shared references. Here the dicts live in an
    arena, a sequence of dicts addressed by index, and the finished value is read back with
    `Resolve`.
  - The case-insensitive sort is a stable insertion sort. It is proved to be a permutation,
    to be ordered, and to keep names that differ only by case in their input order.
- **Tree search filter** (`treefilter.dfy`, module `TreeFilter`). `filterAcceptsRow` keeps
  a row when its own text or the text of any row below it matches the search. The stack
  loop is proved to agree with a recursive definition, and that definition is proved to
  agree with a path-based one. The loop is also proved to pop at most as many rows as the
  row has descendants.
- **Float input widget** (`floatinput.dfy`, module `FloatInput`). It covers:
  - the validator's comma rule;
  - the integer arithmetic of `set_size`, which splits the widget's width into a line edit
    and a square button;
  - `setMinimumHeight`, `sizeHint` and `resizeEvent`;
  - `_submit`, which strips, fixes up and parses the text, then clears the box.

Python integers are unbounded, like Dafny's `int`. The `//` in `set_size` always divides
by 2 or 4, and for a positive divisor Dafny's `/` rounds the same way as Python's floor
division, negative operands included. `wrappers.dfy` holds the `Option` type the modules
share.

## Model

| member | source | states |
|---|---|---|
| Colormaps.Lookup | assets/palettes/Colormap.py:17-34 | exactly the four predefined names have a colour list, and each list has at least ten colours |
| Colormaps.AvailableCm | assets/palettes/Colormap.py:82-84 | the names returned are exactly the names the constructor and set_colormap accept, four of them |
| Colormaps.PredefinedAreDistinct | assets/palettes/Colormap.py:17-34 | no predefined colormap lists a colour twice |
| Colormaps.InitialIsBalanced | assets/palettes/Colormap.py:42-44 | the fresh state (all colours free in colormap order, no item holding one) satisfies the pool invariant |
| Colormaps.AcquireKnown | assets/palettes/Colormap.py:48-49 | an item that already holds a colour gets the same colour back and nothing changes |
| Colormaps.AcquireNew | assets/palettes/Colormap.py:52-59 | a new item gets the pool's front colour, which leaves the pool; with an empty pool it gets colour number len(in use) mod len(colormap); either way the item now holds it |
| Colormaps.AcquirePreserves | assets/palettes/Colormap.py:46-60 | get_color keeps the invariant; the colour returned belongs to the colormap and is recorded for the item; the no-cycling invariant survives unless the pool was empty for a new item |
| Colormaps.ReleasePreserves | assets/palettes/Colormap.py:62-66 | release_color keeps the invariant and the item no longer holds a colour |
| Colormaps.ReleaseThenAcquire | assets/palettes/Colormap.py:62-66 | a released colour is the very next colour a new item receives |
| Colormaps.AcquireThenRelease | assets/palettes/Colormap.py:62-66 | releasing the item that just took a colour from the pool restores the previous state exactly |
| Colormaps.FirstCycledColour | assets/palettes/Colormap.py:54-56 | without earlier cycling, the first item to find the pool empty gets the colormap's first colour |
| Colormaps.Colormap.constructor | assets/palettes/Colormap.py:36-44 | for a predefined name: that name's colours, every colour free in order, no item holding one, invariant established |
| Colormaps.Colormap.Create | assets/palettes/Colormap.py:36-44 | an object is made if and only if the name is predefined (the source raises ValueError otherwise), and then it is in its initial state |
| Colormaps.Colormap.GetColor | assets/palettes/Colormap.py:46-60 | the new state and the colour are what Acquire gives; the colour belongs to the colormap and is the item's; the invariant is kept |
| Colormaps.Colormap.ReleaseColor | assets/palettes/Colormap.py:62-66 | the new state is what Release gives; the colormap is unchanged and the invariant is kept |
| Colormaps.Colormap.Reset | assets/palettes/Colormap.py:68-71 | every colour free again in colormap order, no item holding one, the colormap unchanged |
| Colormaps.Colormap.SetColormap | assets/palettes/Colormap.py:73-80 | an unknown name is rejected and nothing changes; a known name switches colours and leaves the state reset |
| TreeFilter.FilterAcceptsRow | viewmodel/helpers/tree_menu_search_filter.py:8-38 | accepted if and only if the row exists and its own text or the text of some row below it matches; a matching row is accepted with no child examined; the loop pops at most as many rows as there are descendants |
| TreeFilter.SubtreeMatchesIffSomeNode | viewmodel/helpers/tree_menu_search_filter.py:24-36 | the recursive subtree match holds if and only if some node reachable by a path of row numbers matches |
| TreeFilter.PathMatchGivesSubtreeMatch | viewmodel/helpers/tree_menu_search_filter.py:24-36 | a matching node at the end of a path makes every subtree on the path match |
| TreeFilter.SubtreeMatchGivesPath | viewmodel/helpers/tree_menu_search_filter.py:24-36 | a matching subtree has a path to a matching node |
| TreeFilter.AcceptedChildKeepsParent | viewmodel/helpers/tree_menu_search_filter.py:24-36 | a row with an accepted child row is accepted, so the ancestors of a match stay visible |
| TreeFilter.AnyMatchesAppend | viewmodel/helpers/tree_menu_search_filter.py:29-36 | pushing rows on the stack: the stack holds a match if and only if the old stack or the pushed rows do |
| TreeFilter.ForestSizeAppend | viewmodel/helpers/tree_menu_search_filter.py:29-36 | the stack's node count is additive, which bounds the loop |
| FloatInput.Validate | assets/widgets/FloatInputWidget.py:12-15 | text with a comma is Invalid, with text and cursor unchanged; any other text is decided by the base validator |
| FloatInput.CommaAnywhereIsInvalid | assets/widgets/FloatInputWidget.py:13-14 | one comma anywhere makes the text Invalid, whatever surrounds it |
| FloatInput.LayoutSplitsWidth | assets/widgets/FloatInputWidget.py:99-110 | line edit and button widths add up to the width; the button is square, as tall as the line edit, right after it, and at least min_height tall |
| FloatInput.RequestedHeightKept | assets/widgets/FloatInputWidget.py:100-104 | a height that leaves the line edit min_width - min_height and is at least min_height is used unchanged |
| FloatInput.TallRequestShrunk | assets/widgets/FloatInputWidget.py:100-104 | too tall a request is cut back so that the line edit is exactly min_width, unless min_height forbids it |
| FloatInput.IconAndPadding | assets/widgets/FloatInputWidget.py:111-127 | the icon side is half and the pressed padding a quarter of the laid-out height, rounded down |
| FloatInput.LineEditLowerBound | assets/widgets/FloatInputWidget.py:100-106 | for a width of at least min_width the line edit is at least min_width - min_height wide |
| FloatInput.EffectiveHeightIsStable | assets/widgets/FloatInputWidget.py:99-104 | laying out again at the height set_size settled on gives that height again |
| FloatInput.LeadingSpaces | assets/widgets/FloatInputWidget.py:149 | counts exactly the whitespace run at the start of the text |
| FloatInput.TrailingSpaces | assets/widgets/FloatInputWidget.py:149 | counts exactly the whitespace run at the end of the text |
| FloatInput.Strip | assets/widgets/FloatInputWidget.py:149 | the stripped text is a contiguous piece of the text that keeps every non-whitespace character and starts and ends with one |
| FloatInput.StripCharacterised | assets/widgets/FloatInputWidget.py:149 | whatever cut leaves only whitespace before and after it and a non-whitespace character at each end of the kept part is exactly what strip returns |
| FloatInput.StripDropsLeadingSpace | assets/widgets/FloatInputWidget.py:149 | a whitespace character (including U+001C to U+001F) put in front of any text does not change the stripped result |
| FloatInput.StripDropsTrailingSpace | assets/widgets/FloatInputWidget.py:149 | a whitespace character (including U+001C to U+001F) put after any text does not change the stripped result |
| FloatInput.FloatInputWidget.constructor | assets/widgets/FloatInputWidget.py:36-40 | minimum size 148 x 20, and the same minimum width and height handed to Qt, so the widget invariant holds; empty text; no layout yet |
| FloatInput.FloatInputWidget.SetSize | assets/widgets/FloatInputWidget.py:99-129 | writes exactly the clamped layout for the requested size and changes nothing else |
| FloatInput.FloatInputWidget.SizeHint | assets/widgets/FloatInputWidget.py:131-132 | the hint is the minimum size Qt enforces on the widget, which is kept equal to min_width x min_height |
| FloatInput.FloatInputWidget.MinimumSizeHint | assets/widgets/FloatInputWidget.py:134-135 | the minimum size hint equals the size hint |
| FloatInput.FloatInputWidget.SizeHintNeedsNoClamp | assets/widgets/FloatInputWidget.py:131-135 | at its size hint the widget is laid out without clamping: a min_height square button after a min_width - min_height line edit |
| FloatInput.FloatInputWidget.SetMinimumHeight | assets/widgets/FloatInputWidget.py:137-140 | records the new minimum, lays out at exactly that height for the current width, and passes the minimum on to Qt, so Qt's minimum stays the widget's own |
| FloatInput.FloatInputWidget.ResizeEvent | assets/widgets/FloatInputWidget.py:142-145 | lays the children out for the new size |
| FloatInput.FloatInputWidget.Submit | assets/widgets/FloatInputWidget.py:147-159 | the box is cleared in every case; a value is emitted exactly when the stripped, fixed-up text parses, and it is the parsed value |
| CaseInsensitiveSort.LexLeqReflexive | model/helpers/mat_loader.py:54 | Python string comparison is reflexive |
| CaseInsensitiveSort.LexLeqTotal | model/helpers/mat_loader.py:54 | any two strings are comparable |
| CaseInsensitiveSort.LexLeqTransitive | model/helpers/mat_loader.py:54 | string comparison is transitive |
| CaseInsensitiveSort.SortPermutes | model/helpers/mat_loader.py:54 | sorting by lower-cased name returns a permutation of its input |
| CaseInsensitiveSort.SortSorted | model/helpers/mat_loader.py:54 | the result is ordered by lower-cased name |
| CaseInsensitiveSort.SortStable | model/helpers/mat_loader.py:54 | names with the same lower-cased form keep their input order |
| CaseInsensitiveSort.SortPermutesKeys | model/helpers/mat_loader.py:41 | the sorted key list holds exactly the dict's keys, each once per occurrence |
| MatLoader.ConvertEach | model/helpers/mat_loader.py:56-64 | every field keeps its name and position and has its value converted |
| MatLoader.SortingCommutesWithConverting | model/helpers/mat_loader.py:54-64 | sorting the fields and then converting them gives the same as converting and then sorting |
| MatLoader.ConvertStruct | model/helpers/mat_loader.py:54-64 | a struct becomes a dict with one item per field, under the field's name, holding the converted field (non-struct values unchanged), in case-insensitive order, with names differing only by case in struct order |
| MatLoader.ConvertLeavesNoStruct | model/helpers/mat_loader.py:52-64 | after conversion no struct is reachable through dicts at any depth |
| MatLoader.ResolveComplete | model/helpers/mat_loader.py:52-65 | once the work-list is empty, reading any dict back from the arena gives the conversion of the struct it was made from |
| MatLoader.PopTop | model/helpers/mat_loader.py:53 | popping the top pair leaves the work-list invariant with the popped dict being filled, and the count of structs still to pop drops by the popped struct's |
| MatLoader.StoreValue | model/helpers/mat_loader.py:63-64 | storing a non-struct field value keeps the invariant and extends the dict by the right item |
| MatLoader.StoreStruct | model/helpers/mat_loader.py:59-62 | storing a new empty dict for a struct field and pushing the pair keeps the invariant and adds the field's structs to the count still to pop |
| MatLoader.PushKeepsWorkList | model/helpers/mat_loader.py:60-62 | a reference to a new empty dict pushed on the stack keeps every other dict's status |
| MatLoader.Finish | model/helpers/mat_loader.py:56-64 | once every field is stored the dict being filled is complete |
| MatLoader.StoreField | model/helpers/mat_loader.py:57-64 | one pass of the for loop stores the next field in sorted order and keeps the invariant |
| MatLoader.FillDict | model/helpers/mat_loader.py:54-64 | the for loop completes the popped dict; the stack grows by exactly the struct's nested structs |
| MatLoader.ToDictIterative | model/helpers/mat_loader.py:47-65 | the result equals the recursive conversion of the struct, and exactly as many pairs are popped as there are struct nodes in it |
| MatLoader.WithoutFilters | model/helpers/mat_loader.py:29-31 | removing keys keeps exactly the items not named by them |
| MatLoader.WithoutTwice | model/helpers/mat_loader.py:29-31 | two pops in a row remove the keys of both |
| MatLoader.DictPopRemovesOne | model/helpers/mat_loader.py:29 | popping a key from a dict removes the one item under that key, if present, and keeps the rest in order |
| MatLoader.DictPopKeepsDistinct | model/helpers/mat_loader.py:29 | after a pop the keys are still distinct |
| MatLoader.StripMetadataKeepsTheRest | model/helpers/mat_loader.py:29-31 | exactly the items under __header__, __version__ and __globals__ are dropped, and the keys stay distinct |
| MatLoader.ConvertAt | model/helpers/mat_loader.py:42-43 | only the item under the visited key can change: a struct value becomes its dict, anything else stays |
| MatLoader.CheckKeys | model/helpers/mat_loader.py:36-44 | every item keeps its key and position and its value is converted |
| MatLoader.LoadMat | model/helpers/mat_loader.py:8-33 | warns exactly when a __header__ entry is present and the version it yields is 7.3 or more, but converts either way; no metadata key remains; the result is the metadata-free dict in the same order with every value converted |

## Left out

- Reading the file (`scipy.io.loadmat`) is not modelled. LoadMat starts from the dict it
  returns, with mat_struct objects as `MatStruct`.
- LoadMat: the header is not decoded and searched with a regular expression. The version
  number its text yields, if any, is a parameter, consulted only when a `__header__` entry
  is present. The printed warning is the `warned` result.
- Colours are hex strings. The `QColor` objects get_color wraps them in are not modelled.
- Colormaps.Colormap.constructor: `__init__`'s default name "tab10" is not modelled. The
  constructor needs a predefined name. `Create` models the ValueError path by returning
  None.
- Colormaps.Colormap.SetColormap: the ValueError for an unknown name is modelled as the
  result `ok == false`, with the object left unchanged.
- FloatInput.FloatInputWidget.SetSize: only the numbers are recorded. The child geometry,
  icon size and padding are kept, but the style sheet text is not built and no Qt calls are
  made.
- FloatInput.FloatInputWidget.SetMinimumHeight: Qt's own reaction to a new minimum height
  (which may resize the widget and so call resizeEvent) is not modelled.
- FloatInput.FloatInputWidget.ResizeEvent: the call on to Qt's resizeEvent is not
  modelled.
- FloatInput.FloatInputWidget.Submit: `QDoubleValidator.fixup` and Python's `float()` are
  parameters. The emitted signal is the returned value.
- FloatInput.Validate: the inherited `QDoubleValidator.validate` (notation, C locale,
  nine decimals) is a parameter.
- FloatInput.Strip: only ASCII whitespace is removed: tab to carriage return, U+001C to
  U+001F, and space. Python's `str.strip` also removes non-ASCII whitespace such as U+0085
  and U+00A0.
- CaseInsensitiveSort.LowerChar: only ASCII letters are lower-cased. Python's
  `str.lower` folds all Unicode letters.
- MatLoader.ToDictIterative: a struct's field names are assumed distinct, as MATLAB
  guarantees, but the model does not require it. With a repeated name the model keeps both
  items, where a Python dict would keep the last. The source sorts field names and then
  reads each field. The model sorts (name, value) pairs, which is the same when names are
  distinct.
- MatLoader.ToDictIterative: dicts shared by reference are modelled as arena indices. The
  nested value is read back at the end, so aliasing is not modelled.
- TreeFilter.FilterAcceptsRow: the Qt item model is a tree of nodes. The case-insensitive
  regular expression is a predicate on the display text. `index.isValid()` is the row being
  in range under the parent.
- The rest of the application is not part of this model:
  - the windows and their event handlers, drag and drop, and the style sheets;
  - the file buttons and tree view widgets;
  - the randomly chosen plot colours;
  - the file-existence check in the model;
  - the application's start-up and packaging scripts.

  The signal-selection and time-reference logic is not in the source shown (its view-model
  is a stub), so it is not modelled.
