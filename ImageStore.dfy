/**
 * The path and cache logic of store/ImageStore.kt: `process`, which collapses
 * doubled slashes in a cache key; `checkMagicNumber`, a prefix comparison of
 * byte arrays; and `get`, which reloads a cached image when it is stale or
 * empty. The PFM header rewrite of `loadFromPath` is module PfmHeader.
 */
module ImageStore {
  import opened Wrappers
  import opened PfmHeader

  const Slash: char := '/'

  // ---------------------------------------------------------------------------
  // process
  // ---------------------------------------------------------------------------

  /** `s.contains("//")`. */
  predicate HasDoubleSlash(s: string)
  {
    exists i :: 0 <= i < |s| - 1 && s[i] == Slash && s[i + 1] == Slash
  }

  /** `s.replace("//", "/")`: non-overlapping occurrences, left to right. */
  function ReplaceAll(s: string): (r: string)
    ensures |r| <= |s|
    ensures HasDoubleSlash(s) ==> |r| < |s|
  {
    HasDoubleSlashCons(s);
    if |s| >= 2 && s[0] == Slash && s[1] == Slash then [Slash] + ReplaceAll(s[2..])
    else if s == [] then []
    else [s[0]] + ReplaceAll(s[1..])
  }

  /** `s` with every run of slashes collapsed to one slash: what `process` computes. */
  function Squeeze(s: string): string
  {
    if |s| < 2 then s
    else if s[0] == Slash && s[1] == Slash then Squeeze(s[1..])
    else [s[0]] + Squeeze(s[1..])
  }

  /** The collapsed form of `c` followed by an already collapsed `t`. */
  function SqueezeCons(c: char, t: string): string
  {
    if c == Slash && |t| > 0 && t[0] == Slash then t else [c] + t
  }

  /** Unfolds HasDoubleSlash one character at a time. */
  lemma HasDoubleSlashCons(s: string)
    ensures HasDoubleSlash(s) <==>
      (|s| >= 2 && s[0] == Slash && s[1] == Slash) || (|s| >= 1 && HasDoubleSlash(s[1..]))
  {
    if |s| >= 1 && HasDoubleSlash(s[1..]) {
      var i :| 0 <= i < |s[1..]| - 1 && s[1..][i] == Slash && s[1..][i + 1] == Slash;
      assert s[i + 1] == Slash && s[i + 2] == Slash;
    }
    if HasDoubleSlash(s) && !(|s| >= 2 && s[0] == Slash && s[1] == Slash) {
      var i :| 0 <= i < |s| - 1 && s[i] == Slash && s[i + 1] == Slash;
      assert i > 0;
      assert s[1..][i - 1] == Slash && s[1..][i] == Slash;
    }
  }

  /** Collapsing keeps the first character. */
  lemma {:induction false} SqueezeFirst(s: string)
    requires |s| > 0
    ensures |Squeeze(s)| > 0 && Squeeze(s)[0] == s[0]
    decreases |s|
  {
    if |s| >= 2 && s[0] == Slash && s[1] == Slash {
      SqueezeFirst(s[1..]);
    }
  }

  /** Squeezing a character in front of `t` depends only on the squeezed `t`. */
  lemma SqueezePrepend(c: char, t: string)
    ensures Squeeze([c] + t) == SqueezeCons(c, Squeeze(t))
  {
    var s := [c] + t;
    assert s[1..] == t;
    if |t| > 0 {
      SqueezeFirst(t);
    }
  }

  /** One `replace("//", "/")` pass does not change the collapsed form. */
  lemma {:induction false} SqueezeReplaceAll(s: string)
    ensures Squeeze(ReplaceAll(s)) == Squeeze(s)
    decreases |s|
  {
    if |s| >= 2 && s[0] == Slash && s[1] == Slash {
      var t := s[2..];
      assert s[1..] == [Slash] + t;
      SqueezeReplaceAll(t);
      SqueezePrepend(Slash, ReplaceAll(t));
      SqueezePrepend(Slash, t);
    } else if s != [] {
      var t := s[1..];
      assert s == [s[0]] + t;
      SqueezeReplaceAll(t);
      SqueezePrepend(s[0], ReplaceAll(t));
      SqueezePrepend(s[0], t);
    }
  }

  /** A string without `//` is its own collapsed form. */
  lemma {:induction false} SqueezeNoDoubleSlash(s: string)
    requires !HasDoubleSlash(s)
    ensures Squeeze(s) == s
    decreases |s|
  {
    HasDoubleSlashCons(s);
    if |s| >= 2 {
      SqueezeNoDoubleSlash(s[1..]);
      assert s == [s[0]] + s[1..];
    }
  }

  /** The collapsed form holds no `//`. */
  lemma {:induction false} SqueezeHasNoDoubleSlash(s: string)
    ensures !HasDoubleSlash(Squeeze(s))
    decreases |s|
  {
    if |s| < 2 {
      HasDoubleSlashCons(s);
      if |s| == 1 {
        HasDoubleSlashCons(s[1..]);
      }
    } else if s[0] == Slash && s[1] == Slash {
      SqueezeHasNoDoubleSlash(s[1..]);
    } else {
      var t := Squeeze(s[1..]);
      SqueezeHasNoDoubleSlash(s[1..]);
      SqueezeFirst(s[1..]);
      HasDoubleSlashCons([s[0]] + t);
      assert ([s[0]] + t)[1..] == t;
    }
  }

  /** `process` is idempotent: collapsing twice is collapsing once. */
  lemma SqueezeIdempotent(s: string)
    ensures Squeeze(Squeeze(s)) == Squeeze(s)
  {
    SqueezeHasNoDoubleSlash(s);
    SqueezeNoDoubleSlash(Squeeze(s));
  }

  /** A name holding no `//` is left as it is. */
  lemma {:induction false} ReplaceAllNoDoubleSlash(s: string)
    requires !HasDoubleSlash(s)
    ensures ReplaceAll(s) == s
    decreases |s|
  {
    HasDoubleSlashCons(s);
    if s != [] {
      HasDoubleSlashCons(s[1..]);
      ReplaceAllNoDoubleSlash(s[1..]);
      assert s == [s[0]] + s[1..];
    }
  }

  /** `process(name)`: replaces `//` by `/` until none remains. */
  method Process(name: string) returns (p: string)
    ensures p == Squeeze(name)
    ensures !HasDoubleSlash(p)
  {
    p := name;
    while HasDoubleSlash(p)
      invariant Squeeze(p) == Squeeze(name)
      decreases |p|
    {
      SqueezeReplaceAll(p);
      p := ReplaceAll(p);
    }
    SqueezeNoDoubleSlash(p);
  }

  // ---------------------------------------------------------------------------
  // checkMagicNumber
  // ---------------------------------------------------------------------------

  /**
   * `checkMagicNumber(bytes, magicNumber)`: compares index by index and
   * returns false at the first difference; running past the end of `bytes`
   * before a difference throws.
   */
  method CheckMagicNumber(bytes: seq<byte>, magic: seq<byte>) returns (r: Result<bool, Failure>)
    ensures r == Ok(true) <==> |bytes| >= |magic| && bytes[..|magic|] == magic
    ensures r.Err? <==> |bytes| < |magic| && bytes == magic[..|bytes|]
  {
    for i := 0 to |magic|
      invariant i <= |bytes|
      invariant bytes[..i] == magic[..i]
    {
      if i >= |bytes| {
        assert bytes == bytes[..i];
        return Err(ArrayIndexOutOfBounds);
      }
      if bytes[i] != magic[i] {
        assert bytes[..i + 1][i] != magic[..i + 1][i];
        if |bytes| < |magic| {
          assert bytes[i] != magic[..|bytes|][i];
        }
        return Ok(false);
      }
      assert bytes[..i + 1] == bytes[..i] + [bytes[i]];
      assert magic[..i + 1] == magic[..i] + [magic[i]];
    }
    assert magic[..|magic|] == magic;
    return Ok(true);
  }

  // ---------------------------------------------------------------------------
  // get and the cache
  // ---------------------------------------------------------------------------

  /** What the cache keeps of an `ImageSpec`: whether its Mat is empty, and the file time it was read at. */
  datatype ImageSpec = ImageSpec(isEmpty: bool, lastModified: int)

  /** `get` keeps a cached image exactly when it was read at `lastModified` and is not empty. */
  predicate Current(spec: ImageSpec, lastModified: int)
  {
    spec.lastModified == lastModified && !spec.isEmpty
  }

  /**
   * The loading cache `imageStoreMap` behind `get`: the cached images by key,
   * and the keys handed to `loadFromPath`, in order. Loading itself reads the
   * file system and is the parameter `load` of the operations.
   */
  class ImageCache {
    var cache: map<string, ImageSpec>
    var loads: seq<string>

    constructor ()
      ensures cache == map[] && loads == []
    {
      cache := map[];
      loads := [];
    }

    /** `imageStoreMap[key]`: the cached image, or one loaded and cached on a miss. */
    method Lookup(key: string, load: string -> ImageSpec) returns (spec: ImageSpec)
      modifies this
      ensures key in old(cache) ==> spec == old(cache)[key] && loads == old(loads)
      ensures key !in old(cache) ==> spec == load(key) && loads == old(loads) + [key]
      ensures cache == old(cache)[key := spec]
    {
      if key in cache {
        spec := cache[key];
      } else {
        spec := load(key);
        loads := loads + [key];
        cache := cache[key := spec];
      }
    }

    /** `imageStoreMap.invalidate(key)`. */
    method Invalidate(key: string)
      modifies this
      ensures cache == map k | k in old(cache) && k != key :: old(cache)[k]
      ensures loads == old(loads)
    {
      cache := map k | k in cache && k != key :: cache[k];
    }

    /** `get(path, lastModified)`. */
    method Get(path: string, lastModified: int, load: string -> ImageSpec) returns (spec: ImageSpec)
      modifies this
      ensures (spec, cache, loads) == GetSpec(old(cache), old(loads), path, lastModified, load)
    {
      var key := Process(path);
      spec := Lookup(key, load);
      if spec.lastModified != lastModified || spec.isEmpty {
        Invalidate(key);
        spec := Lookup(key, load);
        assert cache == old(cache)[key := spec];
      }
    }

    /** `clearCache()`: drops every cached image. */
    method ClearCache()
      modifies this
      ensures cache == map[] && loads == old(loads)
    {
      cache := map[];
    }
  }

  /** The image `get` returns, the cache it leaves and the loads it made. */
  function GetSpec(cache: map<string, ImageSpec>, loads: seq<string>, path: string,
                   lastModified: int, load: string -> ImageSpec)
    : (r: (ImageSpec, map<string, ImageSpec>, seq<string>))
    // A cached image read at `lastModified` and not empty is returned without loading ...
    ensures Hit(cache, Squeeze(path), lastModified) ==> r.0 == cache[Squeeze(path)] && r.2 == loads
    // ... any other request returns a freshly loaded image
    ensures !Hit(cache, Squeeze(path), lastModified) ==> r.0 == load(Squeeze(path))
    // only the entry of the processed path changes
    ensures r.1 == cache[Squeeze(path) := r.0]
    // at most two loads, both of the processed path: the second only when the first load is not current
    ensures |loads| <= |r.2| <= |loads| + 2 && r.2[..|loads|] == loads
    ensures forall k :: |loads| <= k < |r.2| ==> r.2[k] == Squeeze(path)
    ensures |r.2| == |loads| + 2 <==>
      Squeeze(path) !in cache && !Current(load(Squeeze(path)), lastModified)
  {
    var key := Squeeze(path);
    var first := if key in cache then cache[key] else load(key);
    var loaded := if key in cache then loads else loads + [key];
    if Current(first, lastModified) then (first, cache[key := first], loaded)
    else (load(key), cache[key := load(key)], loaded + [key])
  }

  /** The request finds a current image under `key`. */
  predicate Hit(cache: map<string, ImageSpec>, key: string, lastModified: int)
  {
    key in cache && Current(cache[key], lastModified)
  }

  /**
   * Once `get` has returned a current image, asking again for the same file
   * under any spelling of its path with the same time loads nothing and
   * returns the same image.
   */
  lemma GetRepeat(cache: map<string, ImageSpec>, loads: seq<string>, path: string, path2: string,
                  lastModified: int, load: string -> ImageSpec)
    requires Squeeze(path2) == Squeeze(path)
    requires Current(GetSpec(cache, loads, path, lastModified, load).0, lastModified)
    ensures var (spec, cache1, loads1) := GetSpec(cache, loads, path, lastModified, load);
      GetSpec(cache1, loads1, path2, lastModified, load) == (spec, cache1, loads1)
  {
    var (spec, cache1, loads1) := GetSpec(cache, loads, path, lastModified, load);
    assert Hit(cache1, Squeeze(path2), lastModified);
    assert cache1[Squeeze(path) := spec] == cache1;
  }
}
