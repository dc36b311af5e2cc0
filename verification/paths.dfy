/** File names as java.io.File sees them on a Unix file system. */
module Paths {

  const Separator: char := '/'

  /** The path with every trailing separator removed. */
  function TrimTrailingSeparators(p: string): string
  {
    if p != [] && p[|p| - 1] == Separator then TrimTrailingSeparators(p[..|p| - 1]) else p
  }

  /** The text after the last separator of `p`; all of `p` when it holds none. */
  function AfterLastSeparator(p: string): string
  {
    if p == [] || p[|p| - 1] == Separator then [] else AfterLastSeparator(p[..|p| - 1]) + [p[|p| - 1]]
  }

  /**
   * The name of the file a path denotes (File.getName): java.io.File drops
   * repeated and trailing separators, so this is the last non-empty name of
   * the path, and "" when the path has none.
   */
  function StripPathPart(p: string): string
  {
    AfterLastSeparator(TrimTrailingSeparators(p))
  }

  /** Trimming keeps a prefix of the path, ending in a non-separator, and drops only separators. */
  lemma {:induction false} TrimmedIsPrefix(p: string)
    ensures var t := TrimTrailingSeparators(p);
      && |t| <= |p| && t == p[..|t|]
      && (t == [] || t[|t| - 1] != Separator)
      && (forall i :: |t| <= i < |p| ==> p[i] == Separator)
    decreases |p|
  {
    if p != [] && p[|p| - 1] == Separator {
      TrimmedIsPrefix(p[..|p| - 1]);
    }
  }

  /**
   * AfterLastSeparator gives the longest suffix free of separators: it holds
   * none, and it is all of `p` or directly follows a separator.
   */
  lemma {:induction false} AfterLastSeparatorIsLastName(p: string)
    ensures var r := AfterLastSeparator(p);
      && Separator !in r
      && |r| <= |p| && r == p[|p| - |r|..]
      && (|r| < |p| ==> p[|p| - |r| - 1] == Separator)
    decreases |p|
  {
    if p != [] && p[|p| - 1] != Separator {
      var q := p[..|p| - 1];
      AfterLastSeparatorIsLastName(q);
      var r' := AfterLastSeparator(q);
      assert q[|q| - |r'|..] + [p[|p| - 1]] == p[|p| - |r'| - 1..];
    }
  }

  /** The name holds no separator, and a path without separators is its own name. */
  lemma StripPathPartIsName(p: string)
    ensures Separator !in StripPathPart(p)
    ensures Separator !in p ==> StripPathPart(p) == p
  {
    TrimmedIsPrefix(p);
    var t := TrimTrailingSeparators(p);
    AfterLastSeparatorIsLastName(t);
    if Separator !in p {
      assert t == p;
    }
  }

  /** Appending a name to a directory path that ends in a separator, or to "", gives a path whose name is that name. */
  lemma NameOfJoined(dir: string, name: string)
    requires name != [] && Separator !in name
    requires dir == [] || dir[|dir| - 1] == Separator
    ensures StripPathPart(dir + name) == name
  {
    var p := dir + name;
    assert p[|p| - 1] == name[|name| - 1];
    assert TrimTrailingSeparators(p) == p;
    AfterLastSeparatorIsLastName(p);
    var r := AfterLastSeparator(p);
    assert r == p[|dir|..] == name;
  }

  /** The remote path "dir/name" of a file names that file again. */
  lemma NameOfRemotePath(dir: string, name: string)
    requires name != [] && Separator !in name
    ensures StripPathPart(dir + [Separator] + name) == name
  {
    NameOfJoined(dir + [Separator], name);
  }
}
