# Slideshow window model

A Dafny model of the image slideshow behind the `C4H` game window. At start-up,
`main` walks the pictures directory for file paths and moves the first path
to the front of the list. It then builds a `GameWindow` from that list:

- The window walks the same directory again, loading each image into a
  texture cache keyed by path and appending the path to its list.
- When no load fails, it stably sorts the list by the last run of digits
  in each path, read as a number.
- It then loads the first image.

On every frame the window shows the texture of the current image, or a
label when there is none. Then the D key advances the current index, unless
the current path is gated in `image_requirements`, and the A key moves it
back. Both keys wrap around the ends of the list.

The model has these modules:

- `SortKey`: the sort key. It takes the last maximal run of decimal digits
  in a path and parses it as a `u32`. The key is 0 when there is no run or
  when the parse overflows.
- `StableSort`: `sort_by_key`. `SortByKey` is the reference definition and
  `StableSortByKey` computes it with a loop. The lemmas prove the result is
  ordered by key, a permutation of its input, stable, and the only ordering
  with those three properties.
- `Navigation`: the D and A index transitions as functions, with lemmas
  about range, wrap-around, undoing, full cycles and the gate.
- `Window`: the `GameWindow` class and the `load_images_from_directory`
  loop, which stops on the first failed load. `DirectoryLoad` is the
  specification of that loop. The module also models the texture cache, the
  render choice, and the order in which one `update` draws and then handles
  the D and A keys.
- `Startup`: the reinsertion in `main`. `position` finds the first path at
  index 0, so removing it and inserting it again at index 0 gives back the
  list unchanged.

The reinsertion in `main` looks meant to keep the first walked path in
front. It does not do so, for two reasons:

- It is the identity (`Startup.ReinsertFirst`).
- `load_images_from_directory` sorts the whole list afterwards, seed paths
  included.

`Window.SeedFirstPathNotPinned` shows this on a concrete walk. The walk
yields `a2.jpg` then `a1.jpg` and ends as `a1, a1, a2, a2`. The model
follows the code here, not the apparent intent.

The file system and the image decoder are one function parameter, a
`Decoder` from a path to a decoded image or `None`. It is assumed
deterministic per path. The directory walk is a sequence of entries, where
`None` stands for a path that is not valid UTF-8. A texture is the decoded
image together with the name it is registered under, which is its path.

## Model

| member | source | states |
|---|---|---|
| SortKey.LastDigitRun | window.rs:63-64 | the bounds found are the last maximal digit run, and there are none exactly when the path has no digit |
| SortKey.LastDigitRunSpec | window.rs:63-64 | the scan returns the bounds `(lo, hi)` if and only if `path[lo..hi]` is the last maximal digit run |
| SortKey.LastRunUnique | window.rs:63-64 | a path has at most one last maximal digit run |
| SortKey.LeadingZerosValue | window.rs:65 | leading zeros do not change the value of a digit run |
| SortKey.ParseU32Decimal | window.rs:65 | the decimal rendering of `n`, after any number of leading zeros, parses back to `n` when `n` fits in a `u32` and fails otherwise |
| SortKey.Key | window.rs:61-67 | the key never exceeds `u32::MAX` and is 0 for a path without digits |
| SortKey.KeyOfLastRun | window.rs:63-66 | the key is the value of the last digit run, or 0 when that value overflows `u32` |
| SortKey.KeyOfNumberedPath | window.rs:61-67 | a path whose last digits spell `n` has key `n`, or 0 when `n` exceeds `u32::MAX` |
| SortKey.KeyOfCover | window.rs:66 | a path without digits, `cover.png`, has key 0 |
| SortKey.KeyOfImg2 | window.rs:63-65 | `img2.png` has key 2 |
| SortKey.KeyOfImg10 | window.rs:63-65 | `img10.png` has key 10, so numbers compare by value and not as text |
| SortKey.KeyOfLastRunOnly | window.rs:63-64 | only the last run counts: `Pictures/2/img10.png` has key 10 |
| SortKey.KeyOfLeadingZeros | window.rs:63-65 | leading zeros are accepted: `img007.png` has key 7 |
| SortKey.KeyAtOverflow | window.rs:65 | the number `u32::MAX` is its own key, and one more overflows the parse to key 0 |
| StableSort.WithKey | window.rs:61 | the elements picked out for key `k` all have key `k` |
| StableSort.InsertPermutes | window.rs:61 | one insertion step adds exactly the inserted element |
| StableSort.InsertSorted | window.rs:61 | inserting into a key-sorted sequence keeps it key-sorted |
| StableSort.InsertWithKey | window.rs:61 | inserting places the element after every element with the same key |
| StableSort.SortByKeyPermutes | window.rs:61 | the sorted list is a permutation of its input |
| StableSort.SortByKeySorted | window.rs:61 | the sorted list is nondecreasing by key |
| StableSort.SortByKeyStable | window.rs:61 | elements with equal keys keep their input order |
| StableSort.SortedSameOrderUnique | window.rs:61 | two key-sorted lists that agree on the order within every key are equal |
| StableSort.SortByKeyCharacterized | window.rs:61 | a list is the stable sort of the input if and only if it is key-sorted and keeps the order within every key |
| StableSort.StableSortByKey | window.rs:61 | the loop computes the reference sort, and the result is key-sorted, a permutation and stable |
| Navigation.AdvanceIndex | window.rs:126-133 | on an in-range, ungated path the index moves to the next one, wrapping from the last to 0; otherwise it stays |
| Navigation.RetreatIndex | window.rs:135-136 | on a non-empty list the index stays in range, and an in-range index moves to the previous one, wrapping from 0 to the last, whatever the gate holds |
| Navigation.IndexStaysInRange | window.rs:129-136 | both transitions keep an in-range index in range |
| Navigation.AdvanceThenRetreat | window.rs:129-136 | a retreat undoes an ungated advance; after a gated advance it is a plain retreat |
| Navigation.RetreatThenAdvance | window.rs:129-136 | an advance undoes a retreat unless the retreat landed on a gated path, where the advance stays put |
| Navigation.AdvancesCompose | window.rs:126-133 | `m + n` D presses equal `m` presses followed by `n` more |
| Navigation.AdvancesForward | window.rs:126-133 | with no gated path, presses that stay short of the end step one place each |
| Navigation.AdvanceCycle | window.rs:126-133 | with no gated path, as with the empty requirements `new` sets, as many D presses as images return to the start |
| Navigation.RetreatsCompose | window.rs:135-136 | `m + n` A presses equal `m` presses followed by `n` more |
| Navigation.RetreatsBackward | window.rs:135-136 | presses that stay clear of index 0 step back one place each |
| Navigation.RetreatCycle | window.rs:135-136 | as many A presses as images return to the start |
| Navigation.GatedAdvancesStay | window.rs:128 | on a gated path no number of D presses moves the index |
| Window.FirstUndecodable | window.rs:55-56 | every walked path before the returned position decodes, and the path at it does not |
| Window.Utf8PathsMembers | window.rs:55 | the walk keeps exactly the entries whose path converts to UTF-8 |
| Window.Display | window.rs:100-119 | a texture is shown only for an in-range index, and while every cached texture is registered under its own path it is the texture of the current path |
| Window.GameWindow.constructor | window.rs:30-48 | index 0, empty requirements and text, the list and cache of the directory load over the given list, then the first path loaded |
| Window.GameWindow.LoadImage | window.rs:72-84 | on a decodable path the texture replaces any entry for it and the result is success; otherwise the error names the path and the cache is unchanged |
| Window.GameWindow.LoadImagesFromDirectory | window.rs:50-70 | the list, cache and result left are those of `DirectoryLoad` on the old list and cache |
| Window.GameWindow.Advance | window.rs:126-133 | the index becomes `AdvanceIndex` of the old one |
| Window.GameWindow.Retreat | window.rs:135-138 | the index becomes `RetreatIndex` of the old one |
| Window.GameWindow.Update | window.rs:100-138 | the frame shows the display for the old index, and a texture shown is the one registered for the current path; then D advances and A retreats, in that order |
| Window.WalkLoads | window.rs:55-57 | an entry whose path decodes is cached and then appended |
| Window.WalkSkips | window.rs:55 | an entry whose path is not UTF-8 changes nothing |
| Window.WalkFails | window.rs:56 | the first path that fails to decode ends the load with the list and cache as they stand, and the error names that path |
| Window.WalkCompletes | window.rs:61-69 | a walk that reaches its end leaves the list to be sorted and reports success |
| Window.CacheContents | window.rs:82 | loading paths adds exactly the decodable ones, each under its own path with its own image, and keeps every other entry |
| Window.DirectoryLoadSucceeds | window.rs:56-69 | the directory load succeeds if and only if every walked path decodes |
| Window.DirectoryLoadSorts | window.rs:57-67 | after a successful load the list is key-sorted, a permutation of the old list plus the walked paths, and stable |
| Window.DirectoryLoadCaches | window.rs:55-57 | every appended path is cached with its own texture, no old entry is lost, and nothing else is added |
| Window.DirectoryLoadStops | window.rs:56-57 | after a failed load the list is the old list plus the walked paths before the failure, unsorted; the failing path does not decode, was not appended, and was not cached by the load |
| Window.FirstFrame | window.rs:39-45 | the first frame after `new` shows the first path's texture when it decodes, the loading label when it does not, and the no-image label on an empty list |
| Window.EveryImageShown | window.rs:100-116 | when the seed paths are also walked and the load succeeds, every index shows a texture |
| Window.SeedFirstPathNotPinned | window.rs:61-67 | seed `a2, a1` with walk `a2, a1` ends as `a1, a1, a2, a2`: the seed's first path is not kept first |
| Startup.Removed | main.rs:31 | removing index `i` keeps the elements before it and shifts those after it left |
| Startup.Inserted | main.rs:32 | inserting at `i` puts the element there, keeps those before it and shifts the rest right |
| Startup.InsertRemoved | main.rs:31-32 | inserting the removed element back at its index restores the list |
| Startup.RemovedPermutes | main.rs:31 | removal drops exactly the removed element |
| Startup.Position | main.rs:30 | the index found holds the first occurrence of the target, none exactly when the target is absent, and 0 when the list starts with it |
| Startup.ReinsertFirst | main.rs:29-34 | removing the first path and inserting it at the front leaves the list unchanged, the empty list included |
| Startup.SeedPaths | main.rs:22-34 | the seed list is the walk's UTF-8 paths in walk order, holding exactly those paths |

## Left out

- music.rs: the background music thread is not part of this model. It is concurrency plus audio I/O.
- Directory traversal by `WalkDir`: the model is given the sequence of entries it yields. Walk errors and directories are already filtered out, and `None` marks a non-UTF-8 path.
- Image decoding, RGBA conversion and GPU upload: these are the `Decoder` parameter, assumed to give the same answer for the same path on every call.
- Rendering, panel layout, `request_repaint`, key polling, fonts and window options: all of it is left out. Key presses are the boolean parameters of `Update`.
- The `eprintln!` logging of load errors is not modelled. The constructor ignores both results, as the source does.
- The `output_text` field is kept but never changes, as in the source. Its rendering is not modelled.
- SortKey.Key: does not model the regex crate's Unicode `\d`. Only ASCII digits form runs, so a path whose last digit run holds other decimal digits can get a different key than in Rust, where such a run fails to parse and gives 0.
- Window.GameWindow.Retreat: requires a non-empty list instead of modelling the panic (underflow or division by zero) that the source hits on an empty list. `Update` requires the same when A is pressed.
- `usize` overflow of the index arithmetic is not modelled. Indices are unbounded naturals, and `index + len` cannot overflow for any real list.
- `ColorImage`, `TextureHandle` and `TextureOptions` are reduced to a value holding the size and pixels of the decoded image, registered under the path.
- StableSort.StableSortByKey: the model sorts a sequence value and assigns it back to the field. It does not model Rust's in-place merge sort. Only the result is compared, and `StableSort.SortByKeyCharacterized` shows that the result does not depend on the algorithm.
