/**
  `FontManager` of `src/font.rs`: a memo cache from font names to font
  bytes. Reading a file is outside the model; `read` stands for `fs::read`,
  answering `None` when the read fails.
 */
module Font {
  import opened Wrappers

  newtype byte = x: int | 0 <= x < 256

  datatype FontManager = FontManager(cache: map<string, seq<byte>>)

  /** The answer of `get_font`: the manager afterwards and the font it returns. */
  datatype Lookup = Lookup(manager: FontManager, font: Option<seq<byte>>)

  /** `FontManager::new`. */
  function NewManager(): (m: FontManager)
    ensures |m.cache| == 0
  {
    FontManager(map[])
  }

  /** The file `get_font` reads for `name`. */
  function FontPath(name: string): string {
    "assets/fonts/" + name + ".ttf"
  }

  /** `before`'s entries are all still in `after`, with the same bytes. */
  predicate Extends(before: FontManager, after: FontManager) {
    forall n :: n in before.cache ==> n in after.cache && after.cache[n] == before.cache[n]
  }

  /** Every cached entry holds what reading its file gives. */
  predicate Agrees(m: FontManager, read: string -> Option<seq<byte>>) {
    forall n :: n in m.cache ==> read(FontPath(n)) == Some(m.cache[n])
  }

  /** `FontManager::get_font`. */
  function GetFont(m: FontManager, name: string, read: string -> Option<seq<byte>>): (r: Lookup)
    ensures name in m.cache ==> r == Lookup(m, Some(m.cache[name]))
    ensures name !in m.cache ==> r.font == read(FontPath(name))
    ensures r.font.Some? <==> name in r.manager.cache
    ensures r.font.Some? ==> r.manager.cache[name] == r.font.value
    ensures r.manager.cache.Keys == m.cache.Keys + (if r.font.Some? then {name} else {})
    ensures Extends(m, r.manager)
  {
    if name !in m.cache then
      match read(FontPath(name))
      case Some(bytes) => Lookup(FontManager(m.cache[name := bytes]), Some(bytes))
      case None => Lookup(m, None)
    else
      Lookup(m, Some(m.cache[name]))
  }

  /** A cache hit reads nothing: the answer is the same whatever the file system holds. */
  lemma HitReadsNothing(m: FontManager, name: string, read1: string -> Option<seq<byte>>, read2: string -> Option<seq<byte>>)
    requires name in m.cache
    ensures GetFont(m, name, read1) == GetFont(m, name, read2)
  {
  }

  /** The only file consulted is `FontPath(name)`. */
  lemma ReadsOnlyFontPath(m: FontManager, name: string, read1: string -> Option<seq<byte>>, read2: string -> Option<seq<byte>>)
    requires read1(FontPath(name)) == read2(FontPath(name))
    ensures GetFont(m, name, read1) == GetFont(m, name, read2)
  {
  }

  /**
    While the files do not change, the cache is invisible: each call
    returns what reading the file would return, and keeps the cache in
    agreement with the files.
   */
  lemma CacheIsTransparent(m: FontManager, name: string, read: string -> Option<seq<byte>>)
    requires Agrees(m, read)
    ensures GetFont(m, name, read).font == read(FontPath(name))
    ensures Agrees(GetFont(m, name, read).manager, read)
  {
  }

  /** The manager after a series of `get_font` calls. */
  function GetFonts(m: FontManager, names: seq<string>, read: string -> Option<seq<byte>>): FontManager
    decreases |names|
  {
    if |names| == 0 then m else GetFonts(GetFont(m, names[0], read).manager, names[1..], read)
  }

  /** Over any series of calls the cache only grows and no entry is ever overwritten. */
  lemma {:induction false} CacheOnlyGrows(m: FontManager, names: seq<string>, read: string -> Option<seq<byte>>)
    ensures Extends(m, GetFonts(m, names, read))
    decreases |names|
  {
    if |names| > 0 {
      var m' := GetFont(m, names[0], read).manager;
      CacheOnlyGrows(m', names[1..], read);
    }
  }

  /** Distinct font names are read from distinct files. */
  lemma FontPathInjective(a: string, b: string)
    requires FontPath(a) == FontPath(b)
    ensures a == b
  {
    var p := "assets/fonts/";
    assert |a| == |b|;
    assert a == FontPath(a)[|p|..|p| + |a|];
  }
}
