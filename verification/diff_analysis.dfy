/**
 * `analyze_procedure_diffs`: the change a patched procedure causes, judged
 * from the screenshots taken where its run first differed from the original.
 *
 * What the images show is not modelled: `analyze_image` and
 * `compare_images` read pixels, so their verdicts are parameters here.
 */
module DiffAnalysis {
  import opened Results
  import opened Text
  import opened Numerals
  import opened Sorting
  import opened Seqs

  /** What `analyze_image` says about one screenshot. */
  datatype ImageKind = BlackScreenImage | RedScreenImage | NormalImage | UnknownImage

  /** The change types the script reports. */
  datatype ChangeType = NoDiffs | BlackScreen | RedScreen | Frozen | VisualChange
  {
    /** The name the script stores in an entry's `change_type`. */
    function Name(): string
    {
      match this
      case NoDiffs => "no_diffs"
      case BlackScreen => "black_screen"
      case RedScreen => "red_screen"
      case Frozen => "frozen"
      case VisualChange => "visual_change"
    }
  }

  /** A frame screenshot, as opposed to a `_diff` overlay or another file. */
  predicate IsScreenshot(name: string)
  {
    EndsWith(name, ".png") && !Contains(name, "_diff")
  }

  /** The screenshots of a directory listing, in listing order. */
  function ScreenshotNames(listing: seq<string>): (r: seq<string>)
    ensures |r| <= |listing|
    ensures forall x :: x in r <==> x in listing && IsScreenshot(x)
    ensures multiset(r) <= multiset(listing)
  {
    if listing == [] then []
    else
      var rest := ScreenshotNames(listing[1..]);
      assert listing == [listing[0]] + listing[1..];
      (if IsScreenshot(listing[0]) then [listing[0]] else []) + rest
  }

  /** `sorted(...)` on file names: code-point order. */
  function ByName(): (le: (string, string) -> bool)
    ensures forall a, b :: le(a, b) <==> StrLe(a, b)
  {
    ByStringKey((s: string) => s)
  }

  /** The screenshots of a directory, sorted by name. */
  function Screenshots(listing: seq<string>): (r: seq<string>)
    ensures forall x :: x in r <==> x in listing && IsScreenshot(x)
    ensures Sorted(r, ByName())
  {
    var names := ScreenshotNames(listing);
    StringKeyOrder((s: string) => s);
    SortSorted(names, ByName());
    var r := SortBy(names, ByName());
    assert forall x :: x in r <==> x in multiset(r);
    r
  }

  /** The frame a screenshot is named after: `int(name.replace('.png', ''))`. */
  function FrameOf(name: string): (r: Option<int>)
  {
    PyInt(ReplaceAll(name, ".png", ""), 10)
  }

  /** The frame numbers of the screenshots that name one, in order. */
  function Frames(shots: seq<string>): (r: seq<int>)
    ensures |r| <= |shots|
    ensures r == [] <==> forall k :: 0 <= k < |shots| ==> FrameOf(shots[k]).None?
    ensures forall j :: 0 <= j < |r| ==> exists k :: 0 <= k < |shots| && FrameOf(shots[k]) == Some(r[j])
  {
    var parsed := MapAll(FrameOf, shots);
    var r := Somes(parsed);
    assert forall j :: 0 <= j < |r| ==> exists k :: 0 <= k < |parsed| && parsed[k] == Some(r[j]);
    r
  }

  /**
   * One more screenshot adds its frame, if it names one, after the frames of
   * the earlier ones: every parsed frame is kept, in screenshot order.
   */
  lemma {:induction false} FramesAppend(shots: seq<string>, x: string)
    ensures Frames(shots + [x]) == Frames(shots) + (if FrameOf(x).Some? then [FrameOf(x).value] else [])
  {
    MapAllAppend(FrameOf, shots, [x]);
    SomesAppend(MapAll(FrameOf, shots), MapAll(FrameOf, [x]));
    assert MapAll(FrameOf, [x]) == [FrameOf(x)];
    assert Somes([FrameOf(x)]) == (if FrameOf(x).Some? then [FrameOf(x).value] else []) by {
      assert [FrameOf(x)][1..] == [];
    }
  }

  /** How many consecutive screenshot pairs `same` calls identical. */
  function IdenticalPairs(shots: seq<string>, same: (string, string) -> bool): (n: nat)
    ensures |shots| >= 1 ==> n <= |shots| - 1
  {
    if |shots| < 2 then 0
    else (if same(shots[0], shots[1]) then 1 else 0) + IdenticalPairs(shots[1..], same)
  }

  /** How many consecutive screenshot pairs differ: an independent count. */
  function DifferingPairs(shots: seq<string>, same: (string, string) -> bool): nat
  {
    if |shots| < 2 then 0
    else (if same(shots[0], shots[1]) then 0 else 1) + DifferingPairs(shots[1..], same)
  }

  /** Every consecutive pair is either identical or differing. */
  lemma {:induction false} PairsPartition(shots: seq<string>, same: (string, string) -> bool)
    requires |shots| >= 1
    ensures IdenticalPairs(shots, same) + DifferingPairs(shots, same) == |shots| - 1
  {
    if |shots| >= 2 {
      PairsPartition(shots[1..], same);
    }
  }

  /** The frozen test: at least three screenshots, at least `n - 2` identical pairs. */
  predicate IsFrozen(n: nat, identical: nat)
  {
    n >= 3 && identical >= n - 2
  }

  /** A run is frozen exactly when it has three or more screenshots of which at most one pair differs. */
  lemma {:induction false} FrozenMeans(shots: seq<string>, same: (string, string) -> bool)
    ensures IsFrozen(|shots|, IdenticalPairs(shots, same))
            <==> |shots| >= 3 && DifferingPairs(shots, same) <= 1
  {
    if |shots| >= 1 {
      PairsPartition(shots, same);
    }
  }

  /** Whether a change type's condition holds for the first image and the frozen test. */
  predicate Applies(t: ChangeType, first: ImageKind, frozen: bool)
  {
    match t
    case NoDiffs => false
    case BlackScreen => first == BlackScreenImage
    case RedScreen => first == RedScreenImage
    case Frozen => frozen
    case VisualChange => true
  }

  /** The order in which the script tests the change types; lower wins. */
  function Rank(t: ChangeType): nat
  {
    match t
    case BlackScreen => 0
    case RedScreen => 1
    case Frozen => 2
    case VisualChange => 3
    case NoDiffs => 4
  }

  /** The change type: the first in priority order whose condition holds. */
  function Classify(first: ImageKind, frozen: bool): (r: ChangeType)
    ensures Applies(r, first, frozen)
    ensures forall t :: Applies(t, first, frozen) ==> Rank(r) <= Rank(t)
    ensures r != NoDiffs
  {
    if first == BlackScreenImage then BlackScreen
    else if first == RedScreenImage then RedScreen
    else if frozen then Frozen
    else VisualChange
  }

  /**
   * `analyze_procedure_diffs` on one directory: whether it exists, its
   * listing, and the image verdicts for its files. The first screenshot is
   * judged even when its name is not a frame number.
   */
  function AnalyzeDiffs(isDir: bool, listing: seq<string>, kind: string -> ImageKind,
                        same: (string, string) -> bool): (r: (ChangeType, seq<int>))
    ensures r.0 == NoDiffs <==> !isDir || Frames(Screenshots(listing)) == []
    ensures r.0 == NoDiffs ==> r.1 == []
    ensures r.0 != NoDiffs ==>
              var shots := Screenshots(listing);
              && shots != []
              && r.1 == Frames(shots)
              && Applies(r.0, kind(shots[0]), IsFrozen(|shots|, IdenticalPairs(shots, same)))
  {
    if !isDir then (NoDiffs, [])
    else
      var shots := Screenshots(listing);
      if shots == [] then (NoDiffs, [])
      else
        var frames := Frames(shots);
        if frames == [] then (NoDiffs, [])
        else
          var frozen := IsFrozen(|shots|, IdenticalPairs(shots, same));
          (Classify(kind(shots[0]), frozen), frames)
  }

  /** A procedure with a black first screenshot is reported as a black screen, whatever else holds. */
  lemma {:induction false} BlackScreenFirst(listing: seq<string>, kind: string -> ImageKind, same: (string, string) -> bool)
    requires Frames(Screenshots(listing)) != []
    requires kind(Screenshots(listing)[0]) == BlackScreenImage
    ensures AnalyzeDiffs(true, listing, kind, same).0 == BlackScreen
  {
  }

  /** `change_desc`: the phrase for a change type's name; any other name is an unknown effect. */
  function ChangeDesc(changeType: string): (d: string)
    ensures d == "unknown effect" <==>
              changeType !in {"black_screen", "red_screen", "frozen", "visual_change"}
  {
    if changeType == "black_screen" then "causes black screen"
    else if changeType == "red_screen" then "causes red screen (crash)"
    else if changeType == "frozen" then "causes game freeze"
    else if changeType == "visual_change" then "visual effect"
    else "unknown effect"
  }

  /** Different change types are described differently, so the phrase identifies the type. */
  lemma {:induction false} DescribesType(t: ChangeType, u: ChangeType)
    requires ChangeDesc(t.Name()) == ChangeDesc(u.Name())
    ensures t == u
  {
  }

  /** Only a visual change is described as a visual effect. */
  lemma {:induction false} VisualEffectMeans(changeType: string)
    ensures ChangeDesc(changeType) == "visual effect" <==> changeType == "visual_change"
  {
  }
}
