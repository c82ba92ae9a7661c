/**
 * `generate_report`: one entry per visual procedure, grouped by the scene its
 * first differing frame falls in, written as a text report of lines.
 *
 * Reading the files, the diff directories and the images is not modelled:
 * the results table arrives as rows, the scene list as parsed, and the
 * analysis of each procedure's screenshots as a function of its name.
 */
module AnalysisReport {
  import opened Results
  import opened Numerals
  import opened Sorting
  import opened Seqs
  import opened Bytes
  import opened TasScenes
  import opened DiffAnalysis

  /** A row of the results table: the columns the report reads. */
  datatype ResultRow = ResultRow(procedure: string, status: string, firstDiffFrame: string)

  /** An analysed procedure, as the report keeps it. */
  datatype Entry = Entry(procedure: string, firstFrame: nat, scene: Option<string>,
                         changeType: ChangeType, changeDesc: string, frameCount: nat)

  /** A procedure whose patched run looked different. */
  predicate IsVisual(row: ResultRow)
  {
    row.status == "visual"
  }

  /** `first_frame and first_frame.isdigit()`, for ASCII digits. */
  predicate HasFrame(row: ResultRow)
  {
    row.firstDiffFrame != [] && AllDigitsIn(row.firstDiffFrame, 10)
  }

  /**
   * The entry of one visual row: its frame read by `int()`, its scene, its
   * change. Only rows with a frame number get one, so the frame of any other
   * row is never used.
   */
  function MakeEntry(row: ResultRow, scenes: seq<Scene>, analyze: string -> (ChangeType, seq<int>)): (e: Entry)
    ensures e.procedure == row.procedure
    ensures HasFrame(row) ==> e.firstFrame == DigitsValue(row.firstDiffFrame, 10)
    ensures e.scene == SceneForFrame(e.firstFrame, scenes)
    ensures e.changeType == analyze(row.procedure).0
    ensures e.frameCount == |analyze(row.procedure).1|
    ensures e.changeDesc == ChangeDesc(e.changeType.Name())
  {
    var frame := if HasFrame(row) then DigitsValue(row.firstDiffFrame, 10) else 0;
    var analysis := analyze(row.procedure);
    Entry(row.procedure, frame, SceneForFrame(frame, scenes), analysis.0,
          ChangeDesc(analysis.0.Name()), |analysis.1|)
  }

  /** The entry's frame is what `int()` reads from the row. */
  lemma {:induction false} EntryFrame(row: ResultRow, scenes: seq<Scene>, analyze: string -> (ChangeType, seq<int>))
    requires HasFrame(row)
    ensures PyInt(row.firstDiffFrame, 10) == Some(MakeEntry(row, scenes, analyze).firstFrame)
  {
    PyIntOfDigits(row.firstDiffFrame, 10);
  }

  /**
   * The entries of the visual rows, in row order: one per row with a frame
   * number, and a row without one is skipped.
   */
  function Entries(rows: seq<ResultRow>, scenes: seq<Scene>, analyze: string -> (ChangeType, seq<int>)): (es: seq<Entry>)
    ensures |es| <= |rows|
  {
    MapAll((row: ResultRow) => MakeEntry(row, scenes, analyze), Filter(HasFrame, rows))
  }

  /** Every row with a frame number yields its entry, and every entry comes from such a row. */
  lemma {:induction false} EntriesOfRows(rows: seq<ResultRow>, scenes: seq<Scene>, analyze: string -> (ChangeType, seq<int>))
    ensures var es := Entries(rows, scenes, analyze);
            && (forall k :: 0 <= k < |rows| && HasFrame(rows[k]) ==> MakeEntry(rows[k], scenes, analyze) in es)
            && (forall j :: 0 <= j < |es| ==> exists row :: row in rows && HasFrame(row) && es[j] == MakeEntry(row, scenes, analyze))
  {
    var framed := Filter(HasFrame, rows);
    var es := Entries(rows, scenes, analyze);
    forall k | 0 <= k < |rows| && HasFrame(rows[k])
      ensures MakeEntry(rows[k], scenes, analyze) in es
    {
      var i :| 0 <= i < |framed| && framed[i] == rows[k];
      assert es[i] == MakeEntry(framed[i], scenes, analyze);
    }
    forall j | 0 <= j < |es|
      ensures exists row :: row in rows && HasFrame(row) && es[j] == MakeEntry(row, scenes, analyze)
    {
      assert framed[j] in rows && HasFrame(framed[j]);
    }
  }

  // ---------------------------------------------------------------------------
  // Grouping by scene
  // ---------------------------------------------------------------------------

  /** An entry with a scene: `if scene:` is false for no scene and for an empty one. */
  predicate Known(e: Entry)
  {
    e.scene.Some? && e.scene.value != []
  }

  /** The entry is grouped under scene `name`. */
  predicate Under(e: Entry, name: string)
  {
    Known(e) && e.scene.value == name
  }

  /** The keys of `scene_procedures` in insertion order: each scene once, where it first appears. */
  function SceneNames(es: seq<Entry>): (ks: seq<string>)
    ensures forall i, j :: 0 <= i < j < |ks| ==> ks[i] != ks[j]
    ensures forall k :: 0 <= k < |ks| ==> ks[k] != []
    ensures forall i :: 0 <= i < |es| && Known(es[i]) ==> es[i].scene.value in ks
    decreases |es|
  {
    if es == [] then []
    else
      var front := es[..|es| - 1];
      var names := SceneNames(front);
      var e := es[|es| - 1];
      assert forall i :: 0 <= i < |front| ==> front[i] == es[i];
      if Known(e) && e.scene.value !in names then names + [e.scene.value] else names
  }

  /** Every scene name comes from an entry grouped under it. */
  lemma {:induction false} SceneNamesListed(es: seq<Entry>)
    ensures forall n :: n in SceneNames(es) ==> exists i :: 0 <= i < |es| && Under(es[i], n)
    decreases |es|
  {
    if es != [] {
      var f := es[..|es| - 1];
      SceneNamesListed(f);
      assert forall i :: 0 <= i < |f| ==> f[i] == es[i];
    }
  }

  /** The entries grouped under one scene, in the order they were appended. */
  function Group(es: seq<Entry>, name: string): seq<Entry>
  {
    Filter((e: Entry) => Under(e, name), es)
  }

  /** The entries with no scene, in the order they were appended. */
  function Unknown(es: seq<Entry>): seq<Entry>
  {
    Filter((e: Entry) => !Known(e), es)
  }

  /** The groups of the given scenes, one after the other. */
  function Sections(es: seq<Entry>, names: seq<string>): seq<Entry>
  {
    if names == [] then [] else Group(es, names[0]) + Sections(es, names[1..])
  }

  /** Every group and then the unknown list: `scene_procedures.values()` followed by `unknown_procedures`. */
  function Grouped(es: seq<Entry>): seq<Entry>
  {
    Sections(es, SceneNames(es)) + Unknown(es)
  }

  /** One more entry adds itself to its own group and leaves the others alone. */
  lemma {:induction false} GroupSnoc(es: seq<Entry>, e: Entry, name: string)
    ensures Group(es + [e], name) == Group(es, name) + (if Under(e, name) then [e] else [])
  {
    FilterSnoc((x: Entry) => Under(x, name), es, e);
  }

  /** A group no entry belongs to is empty. */
  lemma {:induction false} GroupEmpty(es: seq<Entry>, name: string)
    requires forall i :: 0 <= i < |es| ==> !Under(es[i], name)
    ensures Group(es, name) == []
  {
    FilterNone((e: Entry) => Under(e, name), es);
  }

  /** The sections of two runs of scene names, one after the other. */
  lemma {:induction false} SectionsAppend(es: seq<Entry>, a: seq<string>, b: seq<string>)
    ensures Sections(es, a + b) == Sections(es, a) + Sections(es, b)
  {
    if a == [] {
      assert a + b == b;
    } else {
      assert (a + b)[0] == a[0];
      assert (a + b)[1..] == a[1..] + b;
      assert Sections(es, a[1..] + b) == Sections(es, a[1..]) + Sections(es, b) by {
        SectionsAppend(es, a[1..], b);
      }
      var g := Group(es, a[0]);
      assert g + (Sections(es, a[1..]) + Sections(es, b)) == (g + Sections(es, a[1..])) + Sections(es, b);
    }
  }

  /** One more entry adds itself to the sections once if its scene is listed, and not at all otherwise. */
  lemma {:induction false} SectionsSnoc(es: seq<Entry>, e: Entry, names: seq<string>)
    requires forall i, j :: 0 <= i < j < |names| ==> names[i] != names[j]
    ensures multiset(Sections(es + [e], names))
            == multiset(Sections(es, names)) + (if Known(e) && e.scene.value in names then multiset{e} else multiset{})
  {
    if names != [] {
      var n, tail := names[0], names[1..];
      var g, g' := Group(es, n), Group(es + [e], n);
      var rest, rest' := Sections(es, tail), Sections(es + [e], tail);
      var inTail := Known(e) && e.scene.value in tail;
      assert multiset(g') == multiset(g) + (if Under(e, n) then multiset{e} else multiset{}) by {
        GroupSnoc(es, e, n);
      }
      assert multiset(rest') == multiset(rest) + (if inTail then multiset{e} else multiset{}) by {
        SectionsSnoc(es, e, tail);
      }
      assert !(Under(e, n) && inTail);
      assert Known(e) && e.scene.value in names <==> Under(e, n) || inTail;
      AddOnce(g, g', rest, rest', e, Under(e, n), inTail);
    }
  }

  /** Adding `e` to at most one of two parts adds it once to their concatenation. */
  lemma {:induction false} AddOnce(a: seq<Entry>, a': seq<Entry>, b: seq<Entry>, b': seq<Entry>, e: Entry, inA: bool, inB: bool)
    requires multiset(a') == multiset(a) + (if inA then multiset{e} else multiset{})
    requires multiset(b') == multiset(b) + (if inB then multiset{e} else multiset{})
    requires !(inA && inB)
    ensures multiset(a' + b') == multiset(a + b) + (if inA || inB then multiset{e} else multiset{})
  {
  }

  /**
   * Grouping loses and invents nothing: the groups and the unknown list
   * together hold each entry exactly once.
   */
  lemma {:induction false} GroupedPermutation(es: seq<Entry>)
    ensures multiset(Grouped(es)) == multiset(es)
    decreases |es|
  {
    if es != [] {
      var f, e := es[..|es| - 1], es[|es| - 1];
      assert es == f + [e];
      GroupedPermutation(f);
      GroupedSnoc(f, e);
    }
  }

  /** One more entry lands in exactly one place of the grouping. */
  lemma {:induction false} GroupedSnoc(f: seq<Entry>, e: Entry)
    ensures multiset(Grouped(f + [e])) == multiset(Grouped(f)) + multiset{e}
  {
    var es := f + [e];
    var names := SceneNames(f);
    var secs, secs' := Sections(f, names), Sections(es, SceneNames(es));
    var u, u' := Unknown(f), Unknown(es);
    assert multiset(u') == multiset(u) + (if !Known(e) then multiset{e} else multiset{}) by {
      FilterSnoc((x: Entry) => !Known(x), f, e);
    }
    assert multiset(secs') == multiset(secs) + (if Known(e) then multiset{e} else multiset{}) by {
      if Known(e) && e.scene.value !in names {
        NewSceneSnoc(f, e);
      } else {
        assert SceneNames(es) == names by {
          assert es[..|es| - 1] == f;
        }
        SectionsSnoc(f, e, names);
      }
    }
    AddOnce(secs, secs', u, u', e, Known(e), !Known(e));
  }

  /** An entry of a scene not seen before opens a group of its own at the end. */
  lemma {:induction false} NewSceneSnoc(f: seq<Entry>, e: Entry)
    requires Known(e) && e.scene.value !in SceneNames(f)
    ensures multiset(Sections(f + [e], SceneNames(f + [e])))
            == multiset(Sections(f, SceneNames(f))) + multiset{e}
  {
    var es, names, s := f + [e], SceneNames(f), e.scene.value;
    assert SceneNames(es) == names + [s] by {
      assert es[..|es| - 1] == f;
    }
    assert Sections(es, names + [s]) == Sections(es, names) + Group(es, s) by {
      SectionsAppend(es, names, [s]);
      assert [s][1..] == [];
    }
    assert multiset(Sections(es, names)) == multiset(Sections(f, names)) by {
      SectionsSnoc(f, e, names);
    }
    assert Group(es, s) == [e] by {
      GroupSnoc(f, e, s);
      GroupEmpty(f, s);
    }
  }

  // ---------------------------------------------------------------------------
  // Sort orders
  // ---------------------------------------------------------------------------

  /** The sort key of a scene the description file does not list. */
  const UnlistedScene := 999999

  /**
   * Where the start frame `{s[2]: s[0] for s in scenes}` keeps for a
   * description comes from: the last scene with it, as later keys overwrite
   * earlier ones; -1 when no scene has it.
   */
  function LastWith(scenes: seq<Scene>, name: string): (i: int)
    ensures -1 <= i < |scenes|
    ensures i == -1 <==> forall k :: 0 <= k < |scenes| ==> scenes[k].description != name
    ensures i >= 0 ==> scenes[i].description == name
    ensures forall k :: i < k < |scenes| ==> scenes[k].description != name
    decreases |scenes|
  {
    if scenes == [] then -1
    else if scenes[|scenes| - 1].description == name then |scenes| - 1
    else LastWith(scenes[..|scenes| - 1], name)
  }

  /** `scene_order.get(s, 999999)`. */
  function SceneKey(scenes: seq<Scene>, name: string): int
  {
    var i := LastWith(scenes, name);
    if i == -1 then UnlistedScene else scenes[i].start
  }

  /** Scenes compared by their sort key. */
  function BySceneKey(scenes: seq<Scene>): (le: (string, string) -> bool)
    ensures forall a, b :: le(a, b) <==> SceneKey(scenes, a) <= SceneKey(scenes, b)
  {
    ByIntKey((name: string) => SceneKey(scenes, name))
  }

  /** Entries compared by first differing frame. */
  function ByFrame(): (le: (Entry, Entry) -> bool)
    ensures forall a, b :: le(a, b) <==> a.firstFrame <= b.firstFrame
  {
    ByIntKey((e: Entry) => e.firstFrame)
  }

  /** Entries compared by procedure name. */
  function ByProcedure(): (le: (Entry, Entry) -> bool)
    ensures forall a, b :: le(a, b) <==> StrLe(a.procedure, b.procedure)
  {
    ByStringKey((e: Entry) => e.procedure)
  }

  /** `sorted(scene_procedures.keys(), key=...)`: the scenes in start-frame order. */
  function SceneOrder(es: seq<Entry>, scenes: seq<Scene>): seq<string>
  {
    SortBy(SceneNames(es), BySceneKey(scenes))
  }

  /**
   * The scenes come out by start frame, unlisted ones last; they are the
   * grouped scenes, and scenes with equal keys keep their first-appearance
   * order.
   */
  lemma {:induction false} SceneOrderSorted(es: seq<Entry>, scenes: seq<Scene>)
    ensures var order := SceneOrder(es, scenes);
            && (forall i, j :: 0 <= i < j < |order| ==> SceneKey(scenes, order[i]) <= SceneKey(scenes, order[j]))
            && multiset(order) == multiset(SceneNames(es))
            && forall z :: Matching(order, z, BySceneKey(scenes)) == Matching(SceneNames(es), z, BySceneKey(scenes))
  {
    IntKeyOrder((name: string) => SceneKey(scenes, name));
    SortSorted(SceneNames(es), BySceneKey(scenes));
    forall z {
      SortStable(SceneNames(es), z, BySceneKey(scenes));
    }
  }

  /** `procs.sort(key=first_frame)` on one group. */
  function SortedGroup(es: seq<Entry>, name: string): seq<Entry>
  {
    SortBy(Group(es, name), ByFrame())
  }

  /** `unknown_procedures.sort(key=first_frame)`. */
  function SortedUnknown(es: seq<Entry>): seq<Entry>
  {
    SortBy(Unknown(es), ByFrame())
  }

  /** Within a section, entries come by first frame, with ties in appending order. */
  lemma {:induction false} SortedByFrame(xs: seq<Entry>)
    ensures var r := SortBy(xs, ByFrame());
            && (forall i, j :: 0 <= i < j < |r| ==> r[i].firstFrame <= r[j].firstFrame)
            && multiset(r) == multiset(xs)
            && forall z :: Matching(r, z, ByFrame()) == Matching(xs, z, ByFrame())
  {
    IntKeyOrder((e: Entry) => e.firstFrame);
    SortSorted(xs, ByFrame());
    forall z {
      SortStable(xs, z, ByFrame());
    }
  }

  /** The groups after the in-place sorts, in `scene_procedures` order. */
  function SortedSections(es: seq<Entry>, names: seq<string>): (r: seq<Entry>)
    ensures multiset(r) == multiset(Sections(es, names))
  {
    if names == [] then [] else SortedGroup(es, names[0]) + SortedSections(es, names[1..])
  }

  /** `all_entries` sorted by procedure name, as the summary lists them. */
  function Summary(es: seq<Entry>): seq<Entry>
  {
    SortBy(SortedSections(es, SceneNames(es)) + SortedUnknown(es), ByProcedure())
  }

  /** The summary lists every entry exactly once, in procedure-name order. */
  lemma {:induction false} SummarySorted(es: seq<Entry>)
    ensures var r := Summary(es);
            && (forall i, j :: 0 <= i < j < |r| ==> StrLe(r[i].procedure, r[j].procedure))
            && multiset(r) == multiset(es)
  {
    StringKeyOrder((e: Entry) => e.procedure);
    var all := SortedSections(es, SceneNames(es)) + SortedUnknown(es);
    SortSorted(all, ByProcedure());
    GroupedPermutation(es);
  }

  // ---------------------------------------------------------------------------
  // The report text
  // ---------------------------------------------------------------------------

  /** `"=" * 80`. */
  function Rule(): (r: string)
    ensures |r| == 80 && forall i :: 0 <= i < |r| ==> r[i] == '='
  {
    Fill('=', 80)
  }

  /** A line of the scene sections: `proc: desc (frame N)`. */
  function EntryLine(e: Entry): string
  {
    e.procedure + ": " + e.changeDesc + " (frame " + Decimal(e.firstFrame) + ")"
  }

  /** The lines `\n--- scene ---\n\n` writes. */
  function SceneHeader(name: string): seq<string>
  {
    ["", "--- " + name + " ---", ""]
  }

  /** A scene's header and its sorted entries. */
  function SceneBlock(es: seq<Entry>, name: string): seq<string>
  {
    SceneHeader(name) + MapAll(EntryLine, SortedGroup(es, name))
  }

  /** The blocks of the given scenes, one after the other. */
  function SceneBlocks(es: seq<Entry>, names: seq<string>): seq<string>
  {
    if names == [] then [] else SceneBlock(es, names[0]) + SceneBlocks(es, names[1..])
  }

  /** The block of entries without a scene, written only when there are some. */
  function UnknownBlock(es: seq<Entry>): seq<string>
  {
    if Unknown(es) == [] then []
    else SceneHeader("Unknown scene") + MapAll(EntryLine, SortedUnknown(es))
  }

  /** A line of the summary: `proc: scene - desc`, with `unknown` for no scene. */
  function SummaryLine(e: Entry): string
  {
    e.procedure + ": " + (if Known(e) then e.scene.value else "unknown") + " - " + e.changeDesc
  }

  /** How many rows carry the status. */
  function WithStatus(rows: seq<ResultRow>, status: string): nat
  {
    |Filter((r: ResultRow) => r.status == status, rows)|
  }

  /** The change type names of the entries, each once, where it first appears. */
  function TypeNames(es: seq<Entry>): (ns: seq<string>)
    ensures forall i, j :: 0 <= i < j < |ns| ==> ns[i] != ns[j]
    ensures forall n :: n in ns <==> exists i :: 0 <= i < |es| && es[i].changeType.Name() == n
    decreases |es|
  {
    if es == [] then []
    else
      var front := es[..|es| - 1];
      var names := TypeNames(front);
      var n := es[|es| - 1].changeType.Name();
      assert forall i :: 0 <= i < |front| ==> front[i] == es[i];
      if n !in names then names + [n] else names
  }

  /** How many entries have the change type. */
  function TypeCount(es: seq<Entry>, name: string): nat
  {
    |Filter((e: Entry) => e.changeType.Name() == name, es)|
  }

  /** The sort key of a statistics pair: its count, negated. */
  function NegatedCount(p: (string, nat)): int
  {
    -(p.1 as int)
  }

  /** Statistics pairs compared by descending count. */
  function ByCountDown(): (le: ((string, nat), (string, nat)) -> bool)
    ensures forall a, b :: le(a, b) <==> a.1 >= b.1
  {
    ByIntKey(NegatedCount)
  }

  /** `sorted(change_stats.items(), key=lambda x: -x[1])`, counted over the groups before they are sorted. */
  function Statistics(es: seq<Entry>): seq<(string, nat)>
  {
    var all := Grouped(es);
    SortBy(MapAll((n: string) => (n, TypeCount(all, n)), TypeNames(all)), ByCountDown())
  }

  /** A line of the statistics: `  type: count`. */
  function StatLine(p: (string, nat)): string
  {
    "  " + p.0 + ": " + Decimal(p.1)
  }

  /** The banner the report opens with. */
  function Banner(): seq<string>
  {
    [Rule(), "ALIEN SOLDIER PROCEDURE ANALYSIS REPORT", Rule(), ""]
  }

  /** The totals over the result rows. */
  function Totals(rows: seq<ResultRow>): seq<string>
  {
    ["Total procedures analyzed: " + Decimal(|rows|),
     "Procedures with visual impact: " + Decimal(WithStatus(rows, "visual")),
     "Procedures with no change: " + Decimal(WithStatus(rows, "no_change")),
     "Procedures with errors: " + Decimal(WithStatus(rows, "error"))]
  }

  /** The title and the totals over the result rows, up to the statistics. */
  function ReportTitle(rows: seq<ResultRow>): seq<string>
  {
    Banner() + Totals(rows) + ["", "Change type statistics:"]
  }

  /** The heading of the scene sections. */
  function SectionsTitle(): seq<string>
  {
    ["", Rule(), "PROCEDURES BY SCENE", Rule(), ""]
  }

  /** The lines before the scene sections: title, totals and statistics. */
  function ReportHead(rows: seq<ResultRow>, es: seq<Entry>): seq<string>
  {
    ReportTitle(rows) + MapAll(StatLine, Statistics(es)) + SectionsTitle()
  }

  /** The scene sections: each scene in start-frame order, then the unknown block. */
  function ReportScenes(es: seq<Entry>, scenes: seq<Scene>): seq<string>
  {
    SceneBlocks(es, SceneOrder(es, scenes)) + UnknownBlock(es)
  }

  /** The summary section. */
  function ReportSummary(es: seq<Entry>): seq<string>
  {
    ["", Rule(), "PROCEDURES SUMMARY (alphabetical)", Rule(), ""] + MapAll(SummaryLine, Summary(es))
  }

  /** The report's lines, for the entries built from the rows; each is written with a line break after it. */
  function ReportOf(rows: seq<ResultRow>, es: seq<Entry>, scenes: seq<Scene>): seq<string>
  {
    ReportHead(rows, es) + ReportScenes(es, scenes) + ReportSummary(es)
  }

  /** `generate_report` past its file checks: the lines of the report file. */
  function GenerateReport(rows: seq<ResultRow>, scenes: seq<Scene>,
                          analyze: string -> (ChangeType, seq<int>)): seq<string>
  {
    ReportOf(rows, Entries(Filter(IsVisual, rows), scenes, analyze), scenes)
  }
}
