/**
 * `GameWindow` from window.rs: the ordered list of image paths, the current
 * index into it, the texture cache keyed by path and the (never populated)
 * map of per-image requirements that gates forward navigation.
 *
 * The file system and the image decoder are one oracle, a `Decoder`, giving
 * for each path the decoded RGBA image or `None` when `image::open` fails.
 * The directory walk is the sequence of file paths it yields; `None` stands
 * for an entry whose path is not valid UTF-8, which the loop skips.
 */
module Window {
  import opened Basics
  import opened SortKey
  import opened StableSort
  import opened Navigation

  /** Decoded RGBA pixels, as `ColorImage::from_rgba_unmultiplied` receives them. */
  datatype ColorImage = ColorImage(width: nat, height: nat, rgba: seq<bv8>)

  /** A texture handle, registered with the GUI context under a name. */
  datatype Texture = Texture(name: string, image: ColorImage)

  /** `image::open(path)` then `to_rgba8()`: the image, or `None` on any error. */
  type Decoder = string -> Option<ColorImage>

  /** The error `load_image` returns: "Failed to open image {path}: ...". */
  datatype LoadError = OpenFailed(path: string)

  /** `Result<(), String>` of `load_image` and `load_images_from_directory`. */
  datatype Outcome = Pass | Fail(error: LoadError)

  /** What the central panel shows in one frame. */
  datatype View = ShowTexture(texture: Texture) | Label(text: string)

  const LOADING_LABEL := "Loading image or error occurred..."
  const NO_IMAGE_LABEL := "No image available."

  /** The cache after one `load_image(path)`: inserted (replacing any entry) when it decodes. */
  function CacheLoad(textures: map<string, Texture>, decode: Decoder, path: string): map<string, Texture>
  {
    match decode(path)
    case Some(image) => textures[path := Texture(path, image)]
    case None => textures
  }

  /** The cache after loading every path of `ps` in order. */
  function Cache(textures: map<string, Texture>, decode: Decoder, ps: seq<string>): map<string, Texture>
  {
    if ps == [] then textures
    else CacheLoad(Cache(textures, decode, ps[..|ps| - 1]), decode, ps[|ps| - 1])
  }

  /** The walked paths that convert to `&str`, in walk order. */
  function Utf8Paths(entries: seq<Option<string>>): (r: seq<string>)
    ensures |r| <= |entries|
  {
    if entries == [] then []
    else
      var init := entries[..|entries| - 1];
      match entries[|entries| - 1]
      case Some(p) => Utf8Paths(init) + [p]
      case None => Utf8Paths(init)
  }

  /** The position of the first path of `ps` that does not decode, or `|ps|`. */
  function FirstUndecodable(decode: Decoder, ps: seq<string>): (f: nat)
    ensures f <= |ps|
    ensures forall i :: 0 <= i < f ==> decode(ps[i]).Some?
    ensures f < |ps| ==> decode(ps[f]).None?
  {
    if ps == [] || decode(ps[0]).None? then 0
    else 1 + FirstUndecodable(decode, ps[1..])
  }

  /** The list, cache and result that `load_images_from_directory` leaves. */
  datatype Population = Population(paths: seq<string>, textures: map<string, Texture>, status: Outcome)

  /**
   * `load_images_from_directory`: load and append each walked path; the first
   * failure returns at once, keeping what was appended and skipping the sort;
   * otherwise the whole list is stably sorted by `Key`.
   */
  function DirectoryLoad(decode: Decoder, paths: seq<string>, textures: map<string, Texture>,
                         entries: seq<Option<string>>): Population
  {
    var walked := Utf8Paths(entries);
    var f := FirstUndecodable(decode, walked);
    if f < |walked| then
      Population(paths + walked[..f], Cache(textures, decode, walked[..f]), Fail(OpenFailed(walked[f])))
    else
      Population(SortByKey(Key, paths + walked), Cache(textures, decode, walked), Pass)
  }

  /** The cache once `new` has also loaded the path now first in the list. */
  function InitialCache(decode: Decoder, population: Population): map<string, Texture>
  {
    if population.paths == [] then population.textures
    else CacheLoad(population.textures, decode, population.paths[0])
  }

  /**
   * The render step's choice among the texture, the loading label and the
   * no-image label. While every cached texture is registered under its own
   * path, the texture on screen is the one of the current path.
   */
  function Display(paths: seq<string>, textures: map<string, Texture>, i: nat): (v: View)
    ensures v.ShowTexture? ==> i < |paths| && (NamedByPath(textures) ==> v.texture.name == paths[i])
  {
    if i < |paths| then
      if paths[i] in textures then ShowTexture(textures[paths[i]]) else Label(LOADING_LABEL)
    else Label(NO_IMAGE_LABEL)
  }

  /** Every cached texture is registered under the path it is cached for. */
  ghost predicate NamedByPath(textures: map<string, Texture>) {
    forall p :: p in textures ==> textures[p].name == p
  }

  class GameWindow {
    var outputText: string
    var textures: map<string, Texture>
    var imagePaths: seq<string>
    var currentImageIndex: nat
    var imageRequirements: map<string, string>

    /** The index is in range once there is an image; textures are named by their key. */
    ghost predicate Valid()
      reads this
    {
      && (currentImageIndex == 0 || currentImageIndex < |imagePaths|)
      && NamedByPath(textures)
    }

    /**
     * `GameWindow::new`: index 0, empty maps, the seed list, then the
     * directory load (its error is only logged) and the load of the first path.
     */
    constructor (decode: Decoder, imagePaths: seq<string>, entries: seq<Option<string>>)
      ensures Valid()
      ensures currentImageIndex == 0 && imageRequirements == map[] && outputText == ""
      ensures var population := DirectoryLoad(decode, imagePaths, map[], entries);
              this.imagePaths == population.paths && textures == InitialCache(decode, population)
    {
      this.textures := map[];
      this.imagePaths := imagePaths;
      currentImageIndex := 0;
      outputText := "";
      imageRequirements := map[];
      new;
      var loaded := LoadImagesFromDirectory(decode, entries);
      if |this.imagePaths| > 0 {
        var initialImagePath := this.imagePaths[0];
        var initialLoaded := LoadImage(decode, initialImagePath);
      }
    }

    /** `load_image`: on success the texture replaces any entry for `path`; on failure nothing changes. */
    method LoadImage(decode: Decoder, path: string) returns (result: Outcome)
      requires Valid()
      modifies this`textures
      ensures Valid()
      ensures decode(path).Some? ==>
                result == Pass && textures == old(textures)[path := Texture(path, decode(path).value)]
      ensures decode(path).None? ==> result == Fail(OpenFailed(path)) && textures == old(textures)
    {
      match decode(path)
      case None =>
        return Fail(OpenFailed(path));
      case Some(image) =>
        var texture := Texture(path, image);
        textures := textures[path := texture];
        return Pass;
    }

    /** `load_images_from_directory` over the walked entries. */
    method LoadImagesFromDirectory(decode: Decoder, entries: seq<Option<string>>) returns (result: Outcome)
      requires Valid()
      modifies this`textures, this`imagePaths
      ensures Valid()
      ensures Population(imagePaths, textures, result)
           == DirectoryLoad(decode, old(imagePaths), old(textures), entries)
    {
      ghost var seed, cache := imagePaths, textures;
      var i := 0;
      while i < |entries|
        invariant Valid()
        invariant WalkedSoFar(decode, seed, cache, entries, i, imagePaths, textures)
      {
        if entries[i].Some? {
          var path := entries[i].value;
          ghost var before := textures;
          result := LoadImage(decode, path);
          if result.Fail? {
            WalkFails(decode, seed, cache, entries, i, imagePaths, textures);
            return;
          }
          WalkLoads(decode, seed, cache, entries, i, imagePaths, before);
          imagePaths := imagePaths + [path];
        } else {
          WalkSkips(decode, seed, cache, entries, i, imagePaths, textures);
        }
        i := i + 1;
      }
      WalkCompletes(decode, seed, cache, entries, imagePaths, textures);
      imagePaths := StableSortByKey(Key, imagePaths);
      result := Pass;
    }

    /** The D key: advance unless the current path is gated. */
    method Advance()
      requires Valid()
      modifies this`currentImageIndex
      ensures Valid()
      ensures currentImageIndex == AdvanceIndex(imagePaths, imageRequirements, old(currentImageIndex))
    {
      if currentImageIndex < |imagePaths| {
        var currentImagePath := imagePaths[currentImageIndex];
        if currentImagePath !in imageRequirements {
          currentImageIndex := (currentImageIndex + 1) % |imagePaths|;
        }
      }
    }

    /** The A key: always retreat. The source panics on an empty list. */
    method Retreat()
      requires Valid() && |imagePaths| > 0
      modifies this`currentImageIndex
      ensures Valid()
      ensures currentImageIndex == RetreatIndex(imagePaths, old(currentImageIndex))
    {
      currentImageIndex := (currentImageIndex + |imagePaths| - 1) % |imagePaths|;
    }

    /**
     * One frame of `update`: the panel is drawn from the index as it stands,
     * then a D press advances and an A press retreats, in that order.
     */
    method Update(pressedD: bool, pressedA: bool) returns (shown: View)
      requires Valid()
      requires pressedA ==> |imagePaths| > 0
      modifies this`currentImageIndex
      ensures Valid()
      ensures shown == Display(imagePaths, textures, old(currentImageIndex))
      ensures shown.ShowTexture? ==>
                old(currentImageIndex) < |imagePaths| && shown.texture.name == imagePaths[old(currentImageIndex)]
      ensures var afterD := if pressedD then AdvanceIndex(imagePaths, imageRequirements, old(currentImageIndex))
                            else old(currentImageIndex);
              currentImageIndex == if pressedA then RetreatIndex(imagePaths, afterD) else afterD
    {
      shown := Display(imagePaths, textures, currentImageIndex);
      if pressedD {
        Advance();
      }
      if pressedA {
        Retreat();
      }
    }
  }

  lemma {:induction false} Utf8PathsAppend(a: seq<Option<string>>, b: seq<Option<string>>)
    ensures Utf8Paths(a + b) == Utf8Paths(a) + Utf8Paths(b)
    decreases |b|
  {
    if b == [] {
      assert a + b == a;
    } else {
      var init := b[..|b| - 1];
      assert (a + b)[..|a + b| - 1] == a + init;
      assert (a + b)[|a + b| - 1] == b[|b| - 1];
      Utf8PathsAppend(a, init);
    }
  }

  /** The walked paths kept are exactly those that convert to UTF-8. */
  lemma {:induction false} Utf8PathsMembers(entries: seq<Option<string>>)
    ensures forall p :: p in Utf8Paths(entries) <==> Some(p) in entries
  {
    if entries != [] {
      var init := entries[..|entries| - 1];
      Utf8PathsMembers(init);
      assert entries == init + [entries[|entries| - 1]];
    }
  }

  /** One more walk entry appends its path when it converts to UTF-8. */
  lemma WalkStep(entries: seq<Option<string>>, i: nat)
    requires i < |entries|
    ensures Utf8Paths(entries[..i + 1])
         == Utf8Paths(entries[..i]) + (if entries[i].Some? then [entries[i].value] else [])
  {
    assert entries[..i + 1][..i] == entries[..i];
  }

  /** Loading one more path into the cache. */
  lemma CacheStep(textures: map<string, Texture>, decode: Decoder, done: seq<string>, path: string)
    ensures Cache(textures, decode, done + [path]) == CacheLoad(Cache(textures, decode, done), decode, path)
  {
    assert (done + [path])[..|done|] == done;
  }

  /**
   * The state of `load_images_from_directory` after the first `i` walk
   * entries: every path kept so far decoded, was appended and was cached.
   */
  ghost predicate WalkedSoFar(decode: Decoder, seed: seq<string>, cache: map<string, Texture>,
                              entries: seq<Option<string>>, i: nat,
                              paths: seq<string>, textures: map<string, Texture>)
  {
    && i <= |entries|
    && var done := Utf8Paths(entries[..i]);
    && (forall j :: 0 <= j < |done| ==> decode(done[j]).Some?)
    && paths == seed + done
    && textures == Cache(cache, decode, done)
  }

  /** An entry whose path decodes is cached and appended. */
  lemma WalkLoads(decode: Decoder, seed: seq<string>, cache: map<string, Texture>,
                  entries: seq<Option<string>>, i: nat, paths: seq<string>, textures: map<string, Texture>)
    requires WalkedSoFar(decode, seed, cache, entries, i, paths, textures)
    requires i < |entries| && entries[i].Some? && decode(entries[i].value).Some?
    ensures var path := entries[i].value;
            WalkedSoFar(decode, seed, cache, entries, i + 1, paths + [path],
                        textures[path := Texture(path, decode(path).value)])
  {
    var path := entries[i].value;
    var done := Utf8Paths(entries[..i]);
    WalkStep(entries, i);
    assert Utf8Paths(entries[..i + 1]) == done + [path];
    CacheStep(cache, decode, done, path);
  }

  /** An entry whose path is not UTF-8 changes nothing. */
  lemma WalkSkips(decode: Decoder, seed: seq<string>, cache: map<string, Texture>,
                  entries: seq<Option<string>>, i: nat, paths: seq<string>, textures: map<string, Texture>)
    requires WalkedSoFar(decode, seed, cache, entries, i, paths, textures)
    requires i < |entries| && entries[i].None?
    ensures WalkedSoFar(decode, seed, cache, entries, i + 1, paths, textures)
  {
    WalkStep(entries, i);
    assert Utf8Paths(entries[..i]) + [] == Utf8Paths(entries[..i]);
  }

  /** An entry whose path does not decode ends the load with what it has. */
  lemma WalkFails(decode: Decoder, seed: seq<string>, cache: map<string, Texture>,
                  entries: seq<Option<string>>, i: nat, paths: seq<string>, textures: map<string, Texture>)
    requires WalkedSoFar(decode, seed, cache, entries, i, paths, textures)
    requires i < |entries| && entries[i].Some? && decode(entries[i].value).None?
    ensures DirectoryLoad(decode, seed, cache, entries) == Population(paths, textures, Fail(OpenFailed(entries[i].value)))
  {
    UndecodableAt(decode, entries, i, Utf8Paths(entries[..i]));
  }

  /** A walk that reaches its end leaves the list to be sorted. */
  lemma WalkCompletes(decode: Decoder, seed: seq<string>, cache: map<string, Texture>,
                      entries: seq<Option<string>>, paths: seq<string>, textures: map<string, Texture>)
    requires WalkedSoFar(decode, seed, cache, entries, |entries|, paths, textures)
    ensures DirectoryLoad(decode, seed, cache, entries) == Population(SortByKey(Key, paths), textures, Pass)
  {
    assert entries[..|entries|] == entries;
    var walked := Utf8Paths(entries);
    FirstUndecodableAt(decode, walked, |walked|);
    assert walked[..|walked|] == walked;
  }

  /** The walk around a UTF-8 entry `i`: the paths before it, its own, and those after it. */
  lemma WalkSplit(entries: seq<Option<string>>, i: nat)
    requires i < |entries| && entries[i].Some?
    ensures Utf8Paths(entries)
         == Utf8Paths(entries[..i]) + [entries[i].value] + Utf8Paths(entries[i + 1..])
  {
    var upTo, after := entries[..i + 1], entries[i + 1..];
    assert upTo + after == entries;
    Utf8PathsAppend(upTo, after);
    WalkStep(entries, i);
  }

  /** The walk stops at entry `i` when its path is the first one that fails to decode. */
  lemma UndecodableAt(decode: Decoder, entries: seq<Option<string>>, i: nat, done: seq<string>)
    requires i < |entries| && entries[i].Some? && decode(entries[i].value).None?
    requires done == Utf8Paths(entries[..i])
    requires forall j :: 0 <= j < |done| ==> decode(done[j]).Some?
    ensures var walked := Utf8Paths(entries);
            FirstUndecodable(decode, walked) == |done| < |walked| &&
            walked[..|done|] == done && walked[|done|] == entries[i].value
  {
    var walked := Utf8Paths(entries);
    WalkSplit(entries, i);
    assert walked == done + [entries[i].value] + Utf8Paths(entries[i + 1..]);
    FirstUndecodableAt(decode, walked, |done|);
  }

  lemma FirstUndecodableAt(decode: Decoder, ps: seq<string>, f: nat)
    requires f <= |ps| && (f < |ps| ==> decode(ps[f]).None?)
    requires forall j :: 0 <= j < f ==> decode(ps[j]).Some?
    ensures FirstUndecodable(decode, ps) == f
  {
  }

  /**
   * Loading `ps` into the cache adds exactly the paths that decode, each as
   * its own decoded texture, and keeps every other entry.
   */
  lemma {:induction false} CacheContents(textures: map<string, Texture>, decode: Decoder, ps: seq<string>)
    ensures var r := Cache(textures, decode, ps);
            forall p :: p in r <==> p in textures || (p in ps && decode(p).Some?)
    ensures var r := Cache(textures, decode, ps);
            forall p :: p in ps && decode(p).Some? ==> r[p] == Texture(p, decode(p).value)
    ensures var r := Cache(textures, decode, ps);
            forall p :: p in textures && !(p in ps && decode(p).Some?) ==> r[p] == textures[p]
  {
    if ps != [] {
      var init, last := ps[..|ps| - 1], ps[|ps| - 1];
      CacheContents(textures, decode, init);
      assert ps == init + [last];
      assert forall p :: p in ps <==> p in init || p == last;
    }
  }

  /** The directory load succeeds exactly when every walked path decodes. */
  lemma DirectoryLoadSucceeds(decode: Decoder, paths: seq<string>, textures: map<string, Texture>,
                              entries: seq<Option<string>>)
    ensures DirectoryLoad(decode, paths, textures, entries).status == Pass
            ==> forall j :: 0 <= j < |Utf8Paths(entries)| ==> decode(Utf8Paths(entries)[j]).Some?
    ensures (forall j :: 0 <= j < |Utf8Paths(entries)| ==> decode(Utf8Paths(entries)[j]).Some?)
            ==> DirectoryLoad(decode, paths, textures, entries).status == Pass
  {
    var walked := Utf8Paths(entries);
    var f := FirstUndecodable(decode, walked);
    if f < |walked| {
      assert decode(walked[f]).None?;
    } else {
      FirstUndecodableAt(decode, walked, |walked|);
    }
  }

  /**
   * A successful directory load leaves the seed list plus the walked paths,
   * ordered by key, with equal-key paths in their prior order.
   */
  lemma DirectoryLoadSorts(decode: Decoder, paths: seq<string>, textures: map<string, Texture>,
                           entries: seq<Option<string>>)
    requires DirectoryLoad(decode, paths, textures, entries).status == Pass
    ensures var all := paths + Utf8Paths(entries);
            var sorted := DirectoryLoad(decode, paths, textures, entries).paths;
            && SortedByKey(Key, sorted)
            && multiset(sorted) == multiset(all)
            && SameOrderPerKey(Key, sorted, all)
  {
    var all := paths + Utf8Paths(entries);
    assert DirectoryLoad(decode, paths, textures, entries).paths == SortByKey(Key, all);
    SortByKeySorted(Key, all);
    SortByKeyPermutes(Key, all);
    SortByKeyStable(Key, all);
  }

  /**
   * After the directory load, every path the walk appended has its own
   * texture, no earlier entry is lost, and nothing else is added.
   */
  lemma DirectoryLoadCaches(decode: Decoder, paths: seq<string>, textures: map<string, Texture>,
                            entries: seq<Option<string>>)
    ensures var walked := Utf8Paths(entries);
            var appended := walked[..FirstUndecodable(decode, walked)];
            var cache := DirectoryLoad(decode, paths, textures, entries).textures;
            && (forall p :: p in appended ==> p in cache && cache[p] == Texture(p, decode(p).value))
            && (forall p :: p in textures ==> p in cache)
            && (forall p :: p in cache ==> p in textures || p in appended)
  {
    var walked := Utf8Paths(entries);
    var f := FirstUndecodable(decode, walked);
    var appended := walked[..f];
    assert f == |walked| ==> appended == walked;
    forall p | p in appended
      ensures decode(p).Some?
    {
      var j :| 0 <= j < |appended| && appended[j] == p;
    }
    CacheContents(textures, decode, appended);
  }

  /**
   * A failed load stops the walk: the list is the seed followed by the paths
   * appended before the failure, in walk order and unsorted, and the path
   * that failed does not decode and was neither appended nor cached.
   */
  lemma DirectoryLoadStops(decode: Decoder, paths: seq<string>, textures: map<string, Texture>,
                           entries: seq<Option<string>>)
    ensures var walked := Utf8Paths(entries);
            var population := DirectoryLoad(decode, paths, textures, entries);
            population.status.Fail? ==>
              var failed := population.status.error.path;
              && decode(failed).None?
              && |paths| <= |population.paths| < |paths| + |walked|
              && population.paths == paths + walked[..|population.paths| - |paths|]
              && walked[|population.paths| - |paths|] == failed
              && failed !in population.paths[|paths|..]
              && (failed in population.textures <==> failed in textures)
  {
    var walked := Utf8Paths(entries);
    var stop := FirstUndecodable(decode, walked);
    var population := DirectoryLoad(decode, paths, textures, entries);
    if stop < |walked| {
      var failed := walked[stop];
      assert population.status.error.path == failed;
      assert population.paths == paths + walked[..stop];
      var f := stop;
      assert population.paths[|paths|..] == walked[..f];
      forall p | p in walked[..f]
        ensures decode(p).Some?
      {
        var j :| 0 <= j < f && walked[..f][j] == p;
      }
      CacheContents(textures, decode, walked[..f]);
    }
  }

  /**
   * The first frame after `new`: the texture of the path now first in the
   * list when it decodes, the loading label when it does not, and the
   * no-image label when the list is empty.
   */
  lemma FirstFrame(decode: Decoder, seed: seq<string>, entries: seq<Option<string>>)
    ensures var population := DirectoryLoad(decode, seed, map[], entries);
            var paths := population.paths;
            Display(paths, InitialCache(decode, population), 0)
              == if paths == [] then Label(NO_IMAGE_LABEL)
                 else match decode(paths[0])
                      case Some(image) => ShowTexture(Texture(paths[0], image))
                      case None => Label(LOADING_LABEL)
  {
    var population := DirectoryLoad(decode, seed, map[], entries);
    DirectoryLoadCaches(decode, seed, map[], entries);
    var walked := Utf8Paths(entries);
    var appended := walked[..FirstUndecodable(decode, walked)];
    forall p | p in appended
      ensures decode(p).Some?
    {
      var j :| 0 <= j < |appended| && appended[j] == p;
    }
  }

  /** The load of the first path keeps every texture already cached. */
  lemma InitialCacheKeeps(decode: Decoder, population: Population, p: string)
    requires p in population.textures
    ensures p in InitialCache(decode, population)
  {
  }

  /**
   * With the seed paths also found by the walk, as `main` arranges by walking
   * the same directory, a successful construction caches every listed path,
   * so every index shows its texture and none shows the loading label.
   */
  lemma EveryImageShown(decode: Decoder, seed: seq<string>, entries: seq<Option<string>>, i: nat)
    requires DirectoryLoad(decode, seed, map[], entries).status == Pass
    requires forall p :: p in seed ==> p in Utf8Paths(entries)
    requires i < |DirectoryLoad(decode, seed, map[], entries).paths|
    ensures var population := DirectoryLoad(decode, seed, map[], entries);
            Display(population.paths, InitialCache(decode, population), i).ShowTexture?
  {
    var population := DirectoryLoad(decode, seed, map[], entries);
    var walked := Utf8Paths(entries);
    DirectoryLoadSucceeds(decode, seed, map[], entries);
    FirstUndecodableAt(decode, walked, |walked|);
    var p := population.paths[i];
    assert p in walked by {
      SortByKeyPermutes(Key, seed + walked);
      assert p in multiset(population.paths);
      assert p in seed + walked;
    }
    assert p in population.textures by {
      assert walked[..|walked|] == walked;
      CacheContents(map[], decode, walked);
    }
    InitialCacheKeeps(decode, population, p);
  }

  /** Sorting `[y, x, y, x]` by a key that puts `x` first gives `[x, x, y, y]`. */
  lemma InterleavedPairSorts<T>(key: T -> nat, x: T, y: T)
    requires key(x) < key(y)
    ensures SortByKey(key, [y, x, y, x]) == [x, x, y, y]
  {
    var s := [y, x, y, x];
    assert s[..1] == [y] && s[..1][..0] == [];
    assert SortByKey(key, s[..1]) == [y];
    assert s[..2][..1] == s[..1];
    assert SortByKey(key, s[..2]) == [x, y];
    assert s[..3][..2] == s[..2];
    assert [y][1..] == [] && Insert(key, y, [y]) == [y, y];
    assert [x, y][1..] == [y] && Insert(key, y, [x, y]) == [x, y, y];
    assert SortByKey(key, s[..3]) == [x, y, y];
    assert s[..4] == s && s[..4][..3] == s[..3];
    assert [x, y, y][1..] == [y, y] && Insert(key, x, [x, y, y]) == [x, x, y, y];
  }

  /** Loading a two-path walk into a seed holding the same two paths. */
  lemma PairLoad(decode: Decoder, x: string, y: string)
    requires Key(x) < Key(y) && decode(x).Some? && decode(y).Some?
    ensures DirectoryLoad(decode, [y, x], map[], [Some(y), Some(x)]).paths == [x, x, y, y]
  {
    var entries := [Some(y), Some(x)];
    assert Utf8Paths(entries) == [y, x] by {
      assert entries[..1] == [Some(y)];
      assert entries[..1][..0] == [];
    }
    FirstUndecodableAt(decode, [y, x], 2);
    assert [y, x] + [y, x] == [y, x, y, x];
    InterleavedPairSorts(Key, x, y);
  }

  lemma ExampleKeys()
    ensures Key("a1.jpg") == 1 && Key("a2.jpg") == 2
  {
    assert "a"[0] == 'a' && NoDigits(".jpg");
    assert Decimal(1) == "1" && Decimal(2) == "2";
    KeyOfNumberedPath("a", 1, ".jpg");
    KeyOfNumberedPath("a", 2, ".jpg");
    assert "a" + "1" + ".jpg" == "a1.jpg";
    assert "a" + "2" + ".jpg" == "a2.jpg";
  }

  /**
   * The seed's first path is not kept first: with the walk yielding
   * `a2.jpg` then `a1.jpg`, and `main` passing that same list as the seed,
   * the final order is `a1, a1, a2, a2`.
   */
  lemma SeedFirstPathNotPinned(decode: Decoder)
    requires decode("a1.jpg").Some? && decode("a2.jpg").Some?
    ensures DirectoryLoad(decode, ["a2.jpg", "a1.jpg"], map[], [Some("a2.jpg"), Some("a1.jpg")]).paths
         == ["a1.jpg", "a1.jpg", "a2.jpg", "a2.jpg"]
  {
    ExampleKeys();
    PairLoad(decode, "a1.jpg", "a2.jpg");
  }
}
