/**
 * Moving the exported files to external storage (moveExportToSDCard and
 * moveFile), as functions on the local state.
 */
module SdCard {
  import opened ExportModel
  import opened Paths

  /** Where an exported file lands: the export folder followed by the file's name. */
  function Destination(folder: string, src: string): string
  {
    folder + StripPathPart(src)
  }

  /**
   * A destination keeps the file's name: in an export folder given with its
   * trailing separator, the destination's own name is the source's name.
   */
  lemma DestinationKeepsName(folder: string, src: string)
    requires folder == [] || folder[|folder| - 1] == Separator
    requires StripPathPart(src) != []
    ensures StripPathPart(Destination(folder, src)) == StripPathPart(src)
  {
    StripPathPartIsName(src);
    NameOfJoined(folder, StripPathPart(src));
  }

  /** The destinations of a list of exported files, in the same order. */
  function Destinations(folder: string, srcs: seq<string>): (dsts: seq<string>)
    ensures |dsts| == |srcs|
    ensures forall i :: 0 <= i < |srcs| ==> dsts[i] == Destination(folder, srcs[i])
  {
    seq(|srcs|, i requires 0 <= i < |srcs| => Destination(folder, srcs[i]))
  }

  /**
   * moveFile: copy the bytes of `src` to `dst`, then delete `src`. Opening a
   * missing source raises an IOException; `copyFails` names the sources whose
   * copy raises one for any other reason. Moving a file onto itself loses it,
   * as the source's copy-then-delete does.
   */
  function MoveFile(st: Store, src: string, dst: string, copyFails: set<string>): (r: Delivered<()>)
    ensures r.outcome.Ok? <==> src in st.files && src !in copyFails
    ensures r.outcome.Thrown? ==> r == Delivered(st, Thrown(IOCause(src)))
    ensures r.outcome.Ok? ==> src !in r.state.files
    ensures r.outcome.Ok? && src != dst ==> dst in r.state.files && r.state.files[dst] == st.files[src]
    ensures r.outcome.Ok? ==> forall p :: p != src && p != dst ==>
              (p in r.state.files <==> p in st.files) && (p in r.state.files ==> r.state.files[p] == st.files[p])
    ensures r.outcome.Ok? ==> r.state.trace == st.trace + [Copied(src, dst), Deleted(src)]
  {
    if src !in st.files || src in copyFails then Delivered(st, Thrown(IOCause(src)))
    else Delivered(DeleteLocal(Store(st.files[dst := st.files[src]], st.trace + [Copied(src, dst)]), src), Ok(()))
  }

  /** The destinations of a non-empty list: the first file's, then those of the rest. */
  lemma DestinationsCons(folder: string, srcs: seq<string>)
    requires srcs != []
    ensures Destinations(folder, srcs) == [Destination(folder, srcs[0])] + Destinations(folder, srcs[1..])
  {
  }

  /** Puts `ds` in front of the destinations a successful move returns. */
  function WithPrefix(ds: seq<string>, r: Delivered<seq<string>>): Delivered<seq<string>>
  {
    if r.outcome.Ok? then Delivered(r.state, Ok(ds + r.outcome.value)) else r
  }

  /** Putting two prefixes in front, one after the other, is putting their concatenation in front. */
  lemma WithPrefixTwice(ds: seq<string>, d: string, r: Delivered<seq<string>>)
    ensures WithPrefix(ds, WithPrefix([d], r)) == WithPrefix(ds + [d], r)
  {
    if r.outcome.Ok? {
      assert ds + ([d] + r.outcome.value) == ds + [d] + r.outcome.value;
    }
  }

  /**
   * moveExportToSDCard: moves each exported file, in order, into the export
   * folder and returns the destinations; the first file that fails ends the
   * move with its IOException.
   */
  function MoveAll(st: Store, srcs: seq<string>, folder: string, copyFails: set<string>): (r: Delivered<seq<string>>)
    ensures r.outcome.Ok? ==> r.outcome.value == Destinations(folder, srcs)
    decreases |srcs|
  {
    if srcs == [] then Delivered(st, Ok([]))
    else
      var dst := Destination(folder, srcs[0]);
      var step := MoveFile(st, srcs[0], dst, copyFails);
      if step.outcome.Thrown? then Delivered(st, Thrown(IOCause(srcs[0])))
      else
        var rest := MoveAll(step.state, srcs[1..], folder, copyFails);
        DestinationsCons(folder, srcs);
        WithPrefix([dst], rest)
  }

  /**
   * No rollback: when the first k files move and file k fails, the move throws
   * file k's IOException and leaves exactly the state the first k moves left;
   * nothing is moved back and nothing after file k is touched.
   */
  lemma {:induction false} StopsAtFirstFailure(st: Store, srcs: seq<string>, folder: string, copyFails: set<string>, k: nat)
    requires k < |srcs|
    requires MoveAll(st, srcs[..k], folder, copyFails).outcome.Ok?
    requires srcs[k] !in MoveAll(st, srcs[..k], folder, copyFails).state.files || srcs[k] in copyFails
    ensures MoveAll(st, srcs, folder, copyFails)
         == Delivered(MoveAll(st, srcs[..k], folder, copyFails).state, Thrown(IOCause(srcs[k])))
    decreases k
  {
    if k > 0 {
      var step := MoveFile(st, srcs[0], Destination(folder, srcs[0]), copyFails);
      assert srcs[..k][0] == srcs[0];
      assert srcs[..k][1..] == srcs[1..][..k - 1];
      StopsAtFirstFailure(step.state, srcs[1..], folder, copyFails, k - 1);
    }
  }

  /** No two files share a source or a destination, and no destination is one of the sources. */
  ghost predicate Unaliased(srcs: seq<string>, folder: string)
  {
    && (forall i, j :: 0 <= i < j < |srcs| ==> srcs[i] != srcs[j])
    && (forall i, j :: 0 <= i < j < |srcs| ==> Destination(folder, srcs[i]) != Destination(folder, srcs[j]))
    && (forall i, j :: 0 <= i < |srcs| && 0 <= j < |srcs| ==> srcs[i] != Destination(folder, srcs[j]))
  }

  lemma UnaliasedTail(srcs: seq<string>, folder: string)
    requires srcs != [] && Unaliased(srcs, folder)
    ensures Unaliased(srcs[1..], folder)
    ensures srcs[0] !in srcs[1..] && srcs[0] !in Destinations(folder, srcs[1..])
    ensures Destination(folder, srcs[0]) !in srcs[1..]
    ensures Destination(folder, srcs[0]) !in Destinations(folder, srcs[1..])
  {
    var rest := srcs[1..];
    forall i, j | 0 <= i < j < |rest|
      ensures rest[i] != rest[j] && Destination(folder, rest[i]) != Destination(folder, rest[j])
    {
      assert rest[i] == srcs[i + 1] && rest[j] == srcs[j + 1];
    }
    forall i, j | 0 <= i < |rest| && 0 <= j < |rest|
      ensures rest[i] != Destination(folder, rest[j])
    {
      assert rest[i] == srcs[i + 1] && rest[j] == srcs[j + 1];
    }
  }

  /**
   * No move disturbs a later source: the sources are distinct and none of
   * them is the destination of an earlier file. Two files may still share a
   * destination; the later one then overwrites the earlier one's copy.
   */
  ghost predicate SourcesSurvive(srcs: seq<string>, folder: string)
  {
    && (forall i, j :: 0 <= i < j < |srcs| ==> srcs[i] != srcs[j])
    && (forall i, j :: 0 <= i < j < |srcs| ==> srcs[j] != Destination(folder, srcs[i]))
  }

  lemma UnaliasedSourcesSurvive(srcs: seq<string>, folder: string)
    requires Unaliased(srcs, folder)
    ensures SourcesSurvive(srcs, folder)
  {
  }

  lemma SourcesSurviveTail(srcs: seq<string>, folder: string)
    requires srcs != [] && SourcesSurvive(srcs, folder)
    ensures SourcesSurvive(srcs[1..], folder)
  {
    var rest := srcs[1..];
    forall i, j | 0 <= i < j < |rest|
      ensures rest[i] != rest[j] && rest[j] != Destination(folder, rest[i])
    {
      assert rest[i] == srcs[i + 1] && rest[j] == srcs[j + 1];
    }
  }

  /**
   * When no move disturbs a later source, the move succeeds exactly when
   * every exported file exists and copies without an IOException.
   */
  lemma {:induction false} SucceedsIffAllMovable(st: Store, srcs: seq<string>, folder: string, copyFails: set<string>)
    requires SourcesSurvive(srcs, folder)
    ensures MoveAll(st, srcs, folder, copyFails).outcome.Ok?
        <==> forall i :: 0 <= i < |srcs| ==> srcs[i] in st.files && srcs[i] !in copyFails
    decreases |srcs|
  {
    if srcs != [] {
      var dst := Destination(folder, srcs[0]);
      var step := MoveFile(st, srcs[0], dst, copyFails);
      SourcesSurviveTail(srcs, folder);
      if step.outcome.Ok? {
        SucceedsIffAllMovable(step.state, srcs[1..], folder, copyFails);
        forall i | 1 <= i < |srcs|
          ensures (srcs[i] in st.files && srcs[i] !in copyFails) <==> (srcs[1..][i - 1] in step.state.files && srcs[1..][i - 1] !in copyFails)
        {
          assert srcs[1..][i - 1] == srcs[i];
          assert srcs[i] != srcs[0] && srcs[i] != dst;
        }
      }
    }
  }

  /**
   * Two exported files with the same name land on the same destination: both
   * moves succeed, and the later file's bytes overwrite the earlier one's,
   * which are then on neither path.
   */
  lemma SameNameOverwrites(st: Store, a: string, b: string, folder: string, copyFails: set<string>)
    requires a != b && a != Destination(folder, a) && b != Destination(folder, a)
    requires Destination(folder, a) == Destination(folder, b)
    requires a in st.files && b in st.files && a !in copyFails && b !in copyFails
    ensures var r := MoveAll(st, [a, b], folder, copyFails);
      && r.outcome == Ok([Destination(folder, a), Destination(folder, a)])
      && a !in r.state.files && b !in r.state.files
      && Destination(folder, a) in r.state.files && r.state.files[Destination(folder, a)] == st.files[b]
  {
    var d := Destination(folder, a);
    var s1 := MoveFile(st, a, d, copyFails);
    var s2 := MoveFile(s1.state, b, d, copyFails);
    assert s1.outcome.Ok? && s2.outcome.Ok?;
    assert [a, b][1..] == [b] && [b][1..] == [];
    assert MoveAll(s2.state, [], folder, copyFails) == Delivered(s2.state, Ok([]));
    assert MoveAll(s1.state, [b], folder, copyFails) == WithPrefix([d], Delivered(s2.state, Ok([])));
    assert [d] + [] == [d] && [d] + [d] == [d, d];
    assert MoveAll(st, [a, b], folder, copyFails) == WithPrefix([d], Delivered(s2.state, Ok([d])));
  }

  /**
   * Round trip: with no aliasing and every file movable, each destination
   * holds exactly the bytes its source held, every source is gone, and every
   * other path is as it was.
   */
  lemma {:induction false} MovesEveryFile(st: Store, srcs: seq<string>, folder: string, copyFails: set<string>)
    requires Unaliased(srcs, folder)
    requires forall i :: 0 <= i < |srcs| ==> srcs[i] in st.files && srcs[i] !in copyFails
    ensures MoveAll(st, srcs, folder, copyFails).outcome.Ok?
    ensures forall i :: 0 <= i < |srcs| ==> srcs[i] !in MoveAll(st, srcs, folder, copyFails).state.files
    ensures forall i :: 0 <= i < |srcs| ==>
              var dst := Destination(folder, srcs[i]);
              var files := MoveAll(st, srcs, folder, copyFails).state.files;
              dst in files && files[dst] == st.files[srcs[i]]
    ensures forall p :: p !in srcs && p !in Destinations(folder, srcs) ==>
              var files := MoveAll(st, srcs, folder, copyFails).state.files;
              (p in files <==> p in st.files) && (p in files ==> files[p] == st.files[p])
    decreases |srcs|
  {
    if srcs != [] {
      var dst := Destination(folder, srcs[0]);
      var st1 := MoveFile(st, srcs[0], dst, copyFails).state;
      var rest := srcs[1..];
      UnaliasedTail(srcs, folder);
      forall i | 0 <= i < |rest| ensures rest[i] in st1.files && rest[i] !in copyFails {
        assert rest[i] == srcs[i + 1];
      }
      MovesEveryFile(st1, rest, folder, copyFails);
      var files := MoveAll(st, srcs, folder, copyFails).state.files;
      assert files == MoveAll(st1, rest, folder, copyFails).state.files;
      forall i | 0 <= i < |srcs|
        ensures srcs[i] !in files
        ensures Destination(folder, srcs[i]) in files && files[Destination(folder, srcs[i])] == st.files[srcs[i]]
      {
        if i > 0 {
          assert rest[i - 1] == srcs[i];
          assert srcs[i] != srcs[0] && srcs[i] != dst;
        }
      }
      forall p | p !in srcs && p !in Destinations(folder, srcs)
        ensures (p in files <==> p in st.files) && (p in files ==> files[p] == st.files[p])
      {
        assert p != srcs[0] && p != Destinations(folder, srcs)[0];
      }
    }
  }
}
