/**
 * The scene list of the tool-assisted run (`parse_tas_description`) and the
 * lookup of the scene a frame falls in (`get_scene_for_frame`).
 *
 * Each line of the description file reads `start-end, description`; a header
 * line starting with `Frames` and blank lines are skipped.
 */
module TasScenes {
  import opened Results
  import opened Text
  import opened Numerals
  import opened Seqs

  /** A scene: the inclusive range of frames it covers and what happens in it. */
  datatype Scene = Scene(start: int, end: int, description: string)

  /**
   * The `ValueError` the script does not catch: `start, end = range.split('-')`
   * on a range with more than one `-`.
   */
  datatype TasError = TooManyDashes(range: string)

  /** A stripped line the parser skips: blank, or the `Frames` header. */
  predicate Skipped(line: string)
  {
    line == [] || StartsWith(line, "Frames")
  }

  /**
   * The two fields of a line: the stripped text before its first comma and
   * the stripped text after it; `None` for a skipped line or one without a
   * comma.
   */
  function Fields(raw: string): (r: Option<(string, string)>)
    ensures r.None? <==> Skipped(Strip(raw)) || ',' !in Strip(raw)
  {
    var line := Strip(raw);
    if Skipped(line) then None
    else match SplitOnce(line, ',')
      case NoSeparator => None
      case Parted(before, after) => Some((Strip(before), Strip(after)))
  }

  /**
   * The frame range of a line: no `-`, nothing; one `-`, the two numbers
   * around it as `int()` reads them (nothing if either does not read); more
   * than one, the uncaught error.
   */
  function ParseRange(range: string, description: string): (r: Result<Option<Scene>, TasError>)
    ensures '-' !in range ==> r == Ok(None)
    ensures r.Err? <==> Count(range, '-') >= 2
    ensures Count(range, '-') == 1 ==>
              var h := SplitOnce(range, '-');
              && h.Parted? && '-' !in h.before && '-' !in h.after
              && (r.Ok? && r.value.Some? <==> PyInt(h.before, 10).Some? && PyInt(h.after, 10).Some?)
              && (r.Ok? && r.value.Some? ==>
                    && Some(r.value.value.start) == PyInt(h.before, 10)
                    && Some(r.value.value.end) == PyInt(h.after, 10)
                    && r.value.value.description == description)
  {
    if '-' !in range then Ok(None)
    else if Count(range, '-') != 1 then Err(TooManyDashes(range))
    else
      match SplitOnce(range, '-')
      case NoSeparator => Ok(None)
      case Parted(a, b) =>
        OneDash(a, b, '-');
        match (PyInt(a, 10), PyInt(b, 10))
        case (Some(x), Some(y)) => Ok(Some(Scene(x, y, description)))
        case _ => Ok(None)
  }

  /** With exactly one `c` in `a + [c] + b`, neither side holds a `c`. */
  lemma {:induction false} OneDash(a: string, b: string, c: char)
    requires Count(a + [c] + b, c) == 1
    ensures c !in a && c !in b
  {
    CountConcat(a + [c], b, c);
    CountConcat(a, [c], c);
  }

  /** One line of the description file: a scene, nothing, or the uncaught error. */
  function ParseTasLine(raw: string): (r: Result<Option<Scene>, TasError>)
    ensures Skipped(Strip(raw)) || ',' !in Strip(raw) ==> r == Ok(None)
  {
    match Fields(raw)
    case None => Ok(None)
    case Some((range, description)) => ParseRange(range, description)
  }

  /** Two results one after the other: the first error, or both lists joined. */
  function Then(x: Result<seq<Scene>, TasError>, y: Result<seq<Scene>, TasError>): Result<seq<Scene>, TasError>
  {
    if x.Err? then x else if y.Err? then y else Ok(x.value + y.value)
  }

  /** The scenes of one line, as a list. */
  function LineScenes(r: Result<Option<Scene>, TasError>): Result<seq<Scene>, TasError>
  {
    match r
    case Err(e) => Err(e)
    case Ok(None) => Ok([])
    case Ok(Some(s)) => Ok([s])
  }

  /** The per-line results collected in order: the first error, or every scene found. */
  function Gather(rs: seq<Result<Option<Scene>, TasError>>): (r: Result<seq<Scene>, TasError>)
    ensures r.Ok? ==> |r.value| <= |rs|
  {
    if rs == [] then Ok([])
    else Then(LineScenes(rs[0]), Gather(rs[1..]))
  }

  /** Collecting succeeds exactly when no line failed. */
  lemma {:induction false} GatherOk(rs: seq<Result<Option<Scene>, TasError>>)
    ensures Gather(rs).Ok? <==> forall k :: 0 <= k < |rs| ==> rs[k].Ok?
  {
    if rs != [] {
      GatherOk(rs[1..]);
      assert forall k :: 1 <= k < |rs| ==> rs[k] == rs[1..][k - 1];
    }
  }

  /** Collecting two runs of results joins their scenes, and the first error wins. */
  lemma {:induction false} GatherAppend(a: seq<Result<Option<Scene>, TasError>>, b: seq<Result<Option<Scene>, TasError>>)
    ensures Gather(a + b) == Then(Gather(a), Gather(b))
  {
    if a == [] {
      assert a + b == b;
      var y := Gather(b);
      if y.Ok? {
        assert [] + y.value == y.value;
      }
    } else {
      assert (a + b)[0] == a[0];
      assert (a + b)[1..] == a[1..] + b;
      GatherAppend(a[1..], b);
      ThenAssociative(LineScenes(a[0]), Gather(a[1..]), Gather(b));
    }
  }

  /** Joining results is associative. */
  lemma {:induction false} ThenAssociative(x: Result<seq<Scene>, TasError>, y: Result<seq<Scene>, TasError>, z: Result<seq<Scene>, TasError>)
    ensures Then(x, Then(y, z)) == Then(Then(x, y), z)
  {
    if x.Ok? && y.Ok? && z.Ok? {
      assert x.value + (y.value + z.value) == (x.value + y.value) + z.value;
    }
  }

  /** `parse_tas_description`: the scenes of the lines in file order; the first bad range raises. */
  function ParseTasDescription(lines: seq<string>): (r: Result<seq<Scene>, TasError>)
    ensures r.Ok? ==> |r.value| <= |lines|
  {
    Gather(MapAll(ParseTasLine, lines))
  }

  /** The file parses exactly when no line raises. */
  lemma {:induction false} ParseTasOk(lines: seq<string>)
    ensures ParseTasDescription(lines).Ok? <==> forall k :: 0 <= k < |lines| ==> ParseTasLine(lines[k]).Ok?
  {
    GatherOk(MapAll(ParseTasLine, lines));
  }

  /** A file is parsed line by line: the scenes of two parts are joined in order, and the first error wins. */
  lemma {:induction false} ParseTasAppend(a: seq<string>, b: seq<string>)
    ensures ParseTasDescription(a + b) == Then(ParseTasDescription(a), ParseTasDescription(b))
  {
    MapAllAppend(ParseTasLine, a, b);
    GatherAppend(MapAll(ParseTasLine, a), MapAll(ParseTasLine, b));
  }

  /** A one-line file gives that line's scene, if any. */
  lemma {:induction false} ParseTasSingle(line: string)
    ensures ParseTasDescription([line]) == LineScenes(ParseTasLine(line))
  {
    GatherSingle(MapAll(ParseTasLine, [line]));
  }

  /** Collecting one result gives its scenes. */
  lemma {:induction false} GatherSingle(rs: seq<Result<Option<Scene>, TasError>>)
    requires |rs| == 1
    ensures Gather(rs) == LineScenes(rs[0])
  {
    assert rs[1..] == [];
    var x := LineScenes(rs[0]);
    if x.Ok? {
      assert x.value + [] == x.value;
    }
  }

  /**
   * A scene written as `start-end, description` reads back as that scene,
   * for a description with no surrounding whitespace.
   */
  lemma {:induction false} TasLineRoundTrip(a: nat, b: nat, description: string)
    requires description != [] && Strip(description) == description
    ensures ParseTasLine(Decimal(a) + "-" + Decimal(b) + ", " + description) == Ok(Some(Scene(a, b, description)))
  {
    var range := Decimal(a) + "-" + Decimal(b);
    assert Fields(range + ", " + description) == Some((range, description)) by {
      RangeShape(Decimal(a), Decimal(b));
      FieldsOf(range, description);
    }
    RangeRoundTrip(a, b, description);
  }

  /** A stripped range, a comma and a space, and a stripped description: the two fields. */
  lemma {:induction false} FieldsOf(range: string, description: string)
    requires range != [] && !IsSpace(range[0]) && Strip(range) == range && ',' !in range
    requires range[0] != 'F'
    requires description != [] && Strip(description) == description
    ensures Fields(range + ", " + description) == Some((range, description))
  {
    var rest := " " + description;
    var line := range + ", " + description;
    assert line == range + [','] + rest;
    assert Strip(line) == line by {
      assert line[0] == range[0];
      assert line[|line| - 1] == description[|description| - 1];
      assert description[|description| - 1] == Strip(description)[|description| - 1];
      StripOfStripped(line);
    }
    assert !Skipped(line) by {
      assert line[0] == range[0];
    }
    SplitOnceAt(range, rest, ',');
    SpaceThen(description);
  }

  /** `a-b` in decimal reads back as the range from `a` to `b`. */
  lemma {:induction false} RangeRoundTrip(a: nat, b: nat, description: string)
    ensures ParseRange(Decimal(a) + "-" + Decimal(b), description) == Ok(Some(Scene(a, b, description)))
  {
    var da, db := Decimal(a), Decimal(b);
    var range := da + "-" + db;
    assert Count(range, '-') == 1 && '-' !in da by {
      RangeShape(da, db);
    }
    SplitOnceAt(da, db, '-');
    assert PyInt(da, 10) == Some(a) && PyInt(db, 10) == Some(b) by {
      PyIntRoundTrip(a, 10);
      PyIntRoundTrip(b, 10);
    }
  }

  /** Two decimal numbers around a `-`: no comma, one dash, and no surrounding whitespace. */
  lemma {:induction false} RangeShape(da: string, db: string)
    requires da != [] && db != []
    requires forall i :: 0 <= i < |da| ==> IsDigit(da[i])
    requires forall i :: 0 <= i < |db| ==> IsDigit(db[i])
    ensures var range := da + "-" + db;
            && ',' !in range && '-' !in da && '-' !in db
            && Count(range, '-') == 1 && Strip(range) == range
            && !IsSpace(range[0]) && range[0] != 'F'
  {
    var range := da + "-" + db;
    assert '-' !in da && '-' !in db;
    CountConcat(da + "-", db, '-');
    CountConcat(da, "-", '-');
    assert range[0] == da[0] && range[|range| - 1] == db[|db| - 1];
    StripOfStripped(range);
  }

  /** One space before a stripped, non-empty text strips away. */
  lemma {:induction false} SpaceThen(t: string)
    requires t != [] && Strip(t) == t
    ensures Strip(" " + t) == t
  {
    assert !IsSpace(t[0]) && !IsSpace(t[|t| - 1]) by {
      assert t[0] == Strip(t)[0] && t[|t| - 1] == Strip(t)[|t| - 1];
    }
    LeadingSpaceOf(" ", t);
    var s := " " + t;
    assert s[|s| - 1] == t[|t| - 1];
    assert s[1..] == t;
  }

  // ---------------------------------------------------------------------------
  // `get_scene_for_frame`
  // ---------------------------------------------------------------------------

  /** `start <= frame <= end`: both bounds belong to the scene. */
  predicate InScene(frame: int, s: Scene)
  {
    s.start <= frame <= s.end
  }

  /** `get_scene_for_frame`: the description of the first scene the frame falls in. */
  function SceneForFrame(frame: int, scenes: seq<Scene>): (r: Option<string>)
    ensures r.None? <==> forall k :: 0 <= k < |scenes| ==> !InScene(frame, scenes[k])
    ensures r.Some? ==> exists k :: 0 <= k < |scenes| && InScene(frame, scenes[k])
                                    && r.value == scenes[k].description
                                    && forall j :: 0 <= j < k ==> !InScene(frame, scenes[j])
  {
    if scenes == [] then None
    else if InScene(frame, scenes[0]) then Some(scenes[0].description)
    else
      var r := SceneForFrame(frame, scenes[1..]);
      assert forall k :: 1 <= k < |scenes| ==> scenes[k] == scenes[1..][k - 1];
      r
  }
}
