/** Paths in the temporary directory: `os.path.join` on POSIX, and the name of the muxed
    output file. */
module Naming {
  import opened Wrappers

  /** The fixed parts of the output file name. */
  const OutputPrefix := "ISAVER.CLICK_"
  const OutputSuffix := ".mp4"

  /** How many characters of the digest go into the name. */
  const ShortHashLength: nat := 5

  /** The names the two downloads are saved under. */
  const VideoFilename := "video.mp4"
  const AudioFilename := "audio.mp4"

  predicate IsHexDigit(c: char) {
    '0' <= c <= '9' || 'a' <= c <= 'f'
  }

  /** What `hashlib.sha1(...).hexdigest()` returns: 40 lower-case hexadecimal digits. */
  predicate IsSha1HexDigest(digest: string) {
    |digest| == 40 && forall i | 0 <= i < |digest| :: IsHexDigit(digest[i])
  }

  /** `digest[:5]`: the first five characters, or all of a shorter string. */
  function ShortHash(digest: string): (h: string)
    ensures |h| == if |digest| < ShortHashLength then |digest| else ShortHashLength
    ensures h <= digest
  {
    if |digest| < ShortHashLength then digest else digest[..ShortHashLength]
  }

  /** `f'ISAVER.CLICK_{short_hash}.mp4'`: the fixed prefix, at most five characters taken
      from the front of the digest, and the `.mp4` extension. */
  function OutputFilename(digest: string): (name: string)
    ensures |OutputPrefix| + |OutputSuffix| <= |name| <= |OutputPrefix| + ShortHashLength + |OutputSuffix|
    ensures name[..|OutputPrefix|] == OutputPrefix && name[|name| - |OutputSuffix|..] == OutputSuffix
    ensures name[|OutputPrefix|..|name| - |OutputSuffix|] <= digest
  {
    var name := OutputPrefix + ShortHash(digest) + OutputSuffix;
    assert name[..|OutputPrefix|] == OutputPrefix;
    assert name[|name| - |OutputSuffix|..] == OutputSuffix;
    assert name[|OutputPrefix|..|name| - |OutputSuffix|] == ShortHash(digest);
    name
  }

  /** The short hash a name of the output form carries, if it has that form. */
  function ShortHashOf(name: string): (h: Option<string>)
    ensures h.Some? ==> OutputPrefix + h.value + OutputSuffix == name
  {
    var p, q := |OutputPrefix|, |OutputSuffix|;
    if |name| >= p + q && name[..p] == OutputPrefix && name[|name| - q..] == OutputSuffix then
      var h := name[p..|name| - q];
      assert name == name[..p] + h + name[|name| - q..];
      Some(h)
    else
      None
  }

  /** The output name gives back the short hash it was made from. */
  lemma ShortHashRoundTrip(digest: string)
    ensures ShortHashOf(OutputFilename(digest)) == Some(ShortHash(digest))
  {
    var name := OutputFilename(digest);
    var p, q := |OutputPrefix|, |OutputSuffix|;
    assert name[..p] == OutputPrefix;
    assert name[|name| - q..] == OutputSuffix;
    assert name[p..|name| - q] == ShortHash(digest);
  }

  /** For a SHA-1 hex digest the output name has 22 characters: the prefix, the first five
      hex digits of the digest, and `.mp4`; it contains no `/`. */
  lemma OutputFilenameShape(digest: string)
    requires IsSha1HexDigest(digest)
    ensures var name := OutputFilename(digest);
      |name| == 22 && name[..13] == OutputPrefix && name[13..18] == digest[..5] && name[18..] == OutputSuffix
      && '/' !in name
  {
    var name := OutputFilename(digest);
    assert name[..13] == OutputPrefix;
    assert name[13..18] == digest[..5];
    assert name[18..] == OutputSuffix;
    assert forall i | 13 <= i < 18 :: name[i] == digest[i - 13];
  }

  /** `os.path.join(dir, name)` on POSIX for two parts: a name starting with `/` replaces the
      directory, an empty directory or one ending in `/` is followed directly by the name, and
      otherwise a `/` goes between them. */
  function Join(dir: string, name: string): (p: string)
    ensures |name| <= |p| && p[|p| - |name|..] == name
    ensures (name == [] || name[0] != '/') ==> |dir| <= |p| && p[..|dir|] == dir
  {
    if |name| > 0 && name[0] == '/' then name
    else if dir == [] || dir[|dir| - 1] == '/' then
      assert (dir + name)[..|dir|] == dir;
      dir + name
    else
      var p := dir + "/" + name;
      assert p[..|dir|] == dir && p[|p| - |name|..] == name;
      p
  }

  /** Index of the last `/` in `p`, or -1 when there is none. */
  function LastSlash(p: string): (i: int)
    ensures -1 <= i < |p|
    ensures i >= 0 ==> p[i] == '/'
    ensures forall j | i < j < |p| :: p[j] != '/'
  {
    if p == [] then -1
    else if p[|p| - 1] == '/' then |p| - 1
    else LastSlash(p[..|p| - 1])
  }

  /** `os.path.basename(p)`: what follows the last `/`, a suffix of `p` with no `/`. */
  function Basename(p: string): (base: string)
    ensures |base| <= |p| && base == p[|p| - |base|..]
    ensures '/' !in base
  {
    var base := p[LastSlash(p) + 1..];
    assert forall j | 0 <= j < |base| :: base[j] == p[LastSlash(p) + 1 + j];
    base
  }

  /** `p` lies somewhere below the directory `dir`: it starts with `dir` and a `/`. */
  predicate Within(p: string, dir: string) {
    |p| > |dir| && p[..|dir|] == dir && p[|dir|] == '/'
  }

  /** `p` lies directly in the directory `dir`: below it, with no further `/`. */
  predicate DirectlyIn(p: string, dir: string) {
    Within(p, dir) && '/' !in p[|dir| + 1..]
  }

  /** Joining a directory that does not end in `/` with a relative name puts the name
      below the directory, after one `/`. */
  lemma JoinWithin(dir: string, name: string)
    requires dir != [] && dir[|dir| - 1] != '/'
    requires name != [] && name[0] != '/'
    ensures Within(Join(dir, name), dir)
    ensures Join(dir, name)[|dir| + 1..] == name
  {
    var p := Join(dir, name);
    assert p == dir + ("/" + name);
    assert p[|dir|] == '/';
  }

  /** Different names joined to the same directory give different paths. */
  lemma JoinDistinct(dir: string, name1: string, name2: string)
    requires dir != [] && dir[|dir| - 1] != '/'
    requires name1 != [] && name1[0] != '/' && name2 != [] && name2[0] != '/'
    requires name1 != name2
    ensures Join(dir, name1) != Join(dir, name2)
  {
    JoinWithin(dir, name1);
    JoinWithin(dir, name2);
  }

  /** Joining a directory that does not end in `/` with a non-empty name that has no `/`
      gives a path directly in that directory whose last component is the name. */
  lemma JoinInDirectory(dir: string, name: string)
    requires dir != [] && dir[|dir| - 1] != '/'
    requires name != [] && '/' !in name
    ensures DirectlyIn(Join(dir, name), dir)
    ensures Basename(Join(dir, name)) == name
  {
    var p := Join(dir, name);
    JoinWithin(dir, name);
    assert LastSlash(p) == |dir| by {
      assert p[..|dir| + 1] + name == p;
      LastSlashBeforeName(p[..|dir| + 1], name);
    }
  }

  /** A slash followed by a name with no slash: the slash is the last one. */
  lemma {:induction false} LastSlashBeforeName(head: string, name: string)
    requires head != [] && head[|head| - 1] == '/'
    requires '/' !in name
    ensures LastSlash(head + name) == |head| - 1
    decreases |name|
  {
    var p := head + name;
    if name == [] {
      assert p == head;
    } else {
      var init := name[..|name| - 1];
      assert p[|p| - 1] == name[|name| - 1];
      assert p[..|p| - 1] == head + init;
      assert forall c | c in init :: c in name;
      LastSlashBeforeName(head, init);
    }
  }
}
