/** The two `pathlib` accessors the tagger relies on, for POSIX paths:
    `Path(p).name` (the last component) and `Path(name).stem` (the name
    without its last suffix). */
module Paths {

  /** The index of the last `c` in `s`, or -1. */
  function LastIndexOf(s: string, c: char): (r: int)
    ensures -1 <= r < |s|
    ensures r >= 0 ==> s[r] == c
    ensures forall k :: r < k < |s| ==> s[k] != c
  {
    if s == [] then -1
    else if s[|s| - 1] == c then |s| - 1
    else LastIndexOf(s[..|s| - 1], c)
  }

  /** `Path(p).name`: everything after the last `/`. */
  function BaseName(p: string): (r: string)
    ensures |r| <= |p| && r == p[|p| - |r|..]
    ensures forall k :: 0 <= k < |r| ==> r[k] != '/'
    ensures |r| < |p| ==> p[|p| - |r| - 1] == '/'
  {
    var i := LastIndexOf(p, '/');
    p[i + 1..]
  }

  /** A name without a separator is its own base name, so taking the base
      name twice changes nothing. */
  lemma BaseNameIdempotent(p: string)
    ensures (forall k :: 0 <= k < |p| ==> p[k] != '/') ==> BaseName(p) == p
    ensures BaseName(BaseName(p)) == BaseName(p)
  {
    var r := BaseName(p);
    assert LastIndexOf(r, '/') == -1;
  }

  /** `Path(name).stem`: the last dot starts a suffix only when it is neither
      the first nor the last character. */
  function Stem(name: string): (r: string)
    ensures |r| <= |name| && r == name[..|r|]
    ensures r == name <==>
              (var i := LastIndexOf(name, '.'); !(0 < i < |name| - 1))
    ensures r != name ==>
              0 < |r| < |name| - 1 && name[|r|] == '.'
              && forall k :: |r| < k < |name| ==> name[k] != '.'
  {
    var i := LastIndexOf(name, '.');
    if 0 < i < |name| - 1 then name[..i] else name
  }

  /** The stem of `base.ext` is `base` for a non-empty base and a non-empty
      extension without dots; `base` itself may contain dots. */
  lemma StemOfSuffixed(base: string, ext: string)
    requires base != [] && ext != []
    requires forall k :: 0 <= k < |ext| ==> ext[k] != '.'
    ensures Stem(base + "." + ext) == base
  {
    var name := base + "." + ext;
    assert name[|base|] == '.';
    assert forall k :: |base| < k < |name| ==> name[k] == ext[k - |base| - 1];
    assert LastIndexOf(name, '.') == |base| by {
      LastIndexOfCharacterised(name, '.', |base|);
    }
    assert name[..|base|] == base;
  }

  /** `LastIndexOf` is the only position holding `c` with no `c` after it. */
  lemma LastIndexOfCharacterised(s: string, c: char, i: int)
    requires 0 <= i < |s| && s[i] == c
    requires forall k :: i < k < |s| ==> s[k] != c
    ensures LastIndexOf(s, c) == i
  {
  }

  const MetadataSuffix: string := "_metadata.json"

  /** `save_metadata`'s output path: `<dir>/<stem>_metadata.json`. */
  function MetadataPath(outputDir: string, audioFilename: string): (path: string)
    ensures |path| == |outputDir| + 1 + |Stem(BaseName(audioFilename))| + |MetadataSuffix|
    ensures path[..|outputDir| + 1] == outputDir + "/"
    ensures path[|outputDir| + 1..|path| - |MetadataSuffix|] == Stem(BaseName(audioFilename))
    ensures path[|path| - |MetadataSuffix|..] == MetadataSuffix
  {
    outputDir + "/" + Stem(BaseName(audioFilename)) + MetadataSuffix
  }

  /** Two audio files write the same metadata file exactly when their names
      share a stem, whatever their directories and extensions. */
  lemma MetadataPathCollides(outputDir: string, a: string, b: string)
    ensures MetadataPath(outputDir, a) == MetadataPath(outputDir, b)
            <==> Stem(BaseName(a)) == Stem(BaseName(b))
  {
    var pa := MetadataPath(outputDir, a);
    var pb := MetadataPath(outputDir, b);
    if pa == pb {
      assert pa[|outputDir| + 1..|pa| - |MetadataSuffix|] == pb[|outputDir| + 1..|pb| - |MetadataSuffix|];
    }
  }

  /** The base name of `dir/name` is `name` when `name` has no separator. */
  lemma BaseNameOfJoined(dir: string, name: string)
    requires forall k :: 0 <= k < |name| ==> name[k] != '/'
    ensures BaseName(dir + "/" + name) == name
  {
    var p := dir + "/" + name;
    LastIndexOfCharacterised(p, '/', |dir|);
    assert p[|dir| + 1..] == name;
  }

  /** Recordings that differ only in their extension, such as `song.mp3` and
      `song.wav`, overwrite each other's metadata file. */
  lemma SameStemOverwrites(outputDir: string, dir: string, base: string, ext1: string, ext2: string)
    requires base != [] && ext1 != [] && ext2 != []
    requires forall k :: 0 <= k < |base| ==> base[k] != '/'
    requires forall k :: 0 <= k < |ext1| ==> ext1[k] != '.' && ext1[k] != '/'
    requires forall k :: 0 <= k < |ext2| ==> ext2[k] != '.' && ext2[k] != '/'
    ensures MetadataPath(outputDir, dir + "/" + base + "." + ext1)
            == MetadataPath(outputDir, dir + "/" + base + "." + ext2)
            == outputDir + "/" + base + MetadataSuffix
  {
    var n1 := base + "." + ext1;
    var n2 := base + "." + ext2;
    assert dir + "/" + base + "." + ext1 == dir + "/" + n1;
    assert dir + "/" + base + "." + ext2 == dir + "/" + n2;
    BaseNameOfJoined(dir, n1);
    BaseNameOfJoined(dir, n2);
    StemOfSuffixed(base, ext1);
    StemOfSuffixed(base, ext2);
  }
}
