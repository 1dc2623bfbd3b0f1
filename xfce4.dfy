/**
 * The Xfce4 backend (xfce4.go). The backend keeps the requested fill mode and
 * the verbose flag; SetWallpaper checks that the image exists, lists the
 * properties of the "xfce4-desktop" channel with xfconf-query, maps the fill
 * mode to Xfce's numeric code and sets every "/image-style" property to the
 * code and every "/last-image" property to the image, in listing order,
 * stopping at the first command that fails. The outside world is a Runner
 * (the abstract command runner), a flag saying whether the image exists and
 * the package-wide default mode.
 */
module Xfce4Backend {
  import opened Wrappers
  import opened GoStd
  import opened Exec

  /** The errors SetWallpaper returns. */
  datatype Error =
    | NoSuchFile(path: string)
      /** Carries the stored mode, as the message does, not the effective one. */
    | InvalidMode(mode: string)
      /** A set command failed: a non-zero exit, or it could not be started. */
    | CommandFailed(failed: Invocation)

  /** The result of one SetWallpaper call and the invocations it issued, oldest first. */
  datatype Report = Report(err: Option<Error>, issued: seq<Invocation>)

  /** The Xfce configuration tool. */
  const XfconfQuery: string := "xfconf-query"

  /** The arguments that list the properties of the desktop channel. */
  const ListArguments: seq<string> := ["--channel", "xfce4-desktop", "--list"]

  /** The arguments that set one property of the desktop channel to a value. */
  function SetArguments(prop: string, value: string): seq<string> {
    ["--channel", "xfce4-desktop", "--property", prop, "--set", value]
  }

  /** The query that lists the properties of the desktop channel. */
  function ListQuery(verbose: bool): Invocation {
    OutputCall(XfconfQuery, ListArguments, verbose)
  }

  /** The command that sets one property of the desktop channel. */
  function SetProperty(prop: string, value: string, verbose: bool): Invocation {
    RunCall(XfconfQuery, SetArguments(prop, value), verbose)
  }

  /** Whether the property is a fill-mode property: strings.HasSuffix(prop, "/image-style"). */
  predicate IsStyleProperty(prop: string) {
    EndsWith(prop, "/image-style")
  }

  /** Whether the property is an image property: strings.HasSuffix(prop, "/last-image"). */
  predicate IsImageProperty(prop: string) {
    EndsWith(prop, "/last-image")
  }

  /** No property name ends in both "/image-style" and "/last-image". */
  lemma StyleAndImageExclusive(prop: string)
    ensures !(IsStyleProperty(prop) && IsImageProperty(prop))
  {
  }

  // ---------------------------------------------------------------- fill mode

  /** The mode names the table of SetWallpaper knows. */
  const ModeNames: set<string> :=
    {"stretch", "stretched", "auto", "center", "centered", "tile", "tiled",
     "scale", "scaled", "fit", "fill", "zoom", "zoomed", "crop", "cropped"}

  /** The mode SetWallpaper uses: the stored one, or the default when none is stored. */
  function EffectiveMode(mode: string, defaultMode: string): (m: string)
    ensures mode != "" ==> m == mode
    ensures mode == "" ==> m == defaultMode
  {
    if mode != "" then mode else defaultMode
  }

  /**
   * The Xfce code of a mode: Auto=0, Centered=1, Tiled=2, Stretched=3,
   * Scaled=4, Zoomed=5. Any one-byte mode, that is one ASCII character, is
   * passed through as it is; any other mode outside the table, a single
   * non-ASCII character included, has no code.
   */
  function FillMode(mode: string): (code: Option<string>)
    ensures |mode| == 1 && mode[0] as int < 0x80 ==> code == Some(mode)
    ensures |mode| == 1 && mode[0] as int >= 0x80 ==> code == None
    ensures code.Some? ==> |code.value| == 1
    ensures |mode| != 1 && code.Some? ==> code.value in {"0", "1", "2", "3", "4", "5"}
    ensures code.None? <==> !(|mode| == 1 && mode[0] as int < 0x80) && mode !in ModeNames
  {
    ByteLenOne(mode);
    // A string of one byte is one character; testing |mode| first spares
    // the proofs about the named modes from unfolding ByteLen.
    if |mode| == 1 && ByteLen(mode) == 1 then Some(mode)
    else if mode == "stretch" || mode == "stretched" then Some("3")
    else if mode == "auto" then Some("0")
    else if mode == "center" || mode == "centered" then Some("1")
    else if mode == "tile" || mode == "tiled" then Some("2")
    else if mode == "scale" || mode == "scaled" || mode == "fit" || mode == "fill" then Some("4")
    else if mode == "zoom" || mode == "zoomed" || mode == "crop" || mode == "cropped" then Some("5")
    else None
  }

  /** The table, entry by entry: the names of Auto, Centered and Tiled. */
  lemma ModeTableFirstCodes()
    ensures FillMode("auto") == Some("0")
    ensures FillMode("center") == FillMode("centered") == Some("1")
    ensures FillMode("tile") == FillMode("tiled") == Some("2")
  {
  }

  /** The names of Stretched, Scaled and Zoomed. */
  lemma ModeTableLastCodes()
    ensures FillMode("stretch") == FillMode("stretched") == Some("3")
    ensures FillMode("scale") == FillMode("scaled") == FillMode("fit") == FillMode("fill") == Some("4")
    ensures FillMode("zoom") == FillMode("zoomed") == FillMode("crop") == FillMode("cropped") == Some("5")
  {
  }

  /**
   * A one-byte mode is passed through, even one that is no code; an unknown
   * name has none, and neither has a single two-byte character such as 'é'.
   */
  lemma ModeTableOthers()
    ensures FillMode("3") == Some("3") && FillMode("x") == Some("x")
    ensures FillMode("sideways") == None
    ensures FillMode("\U{e9}") == None
  {
  }

  // ---------------------------------------------------------------- the set commands

  /** The set commands the loop body issues for one property, when none fails. */
  function PropertyCalls(prop: string, code: string, imageFilename: string, verbose: bool): seq<Invocation> {
    (if IsStyleProperty(prop) then [SetProperty(prop, code, verbose)] else []) +
    (if IsImageProperty(prop) then [SetProperty(prop, imageFilename, verbose)] else [])
  }

  /**
   * A property gets at most one set command, and one exactly when it is a
   * style or an image property: the code for the one, the image for the other.
   */
  lemma PropertyCallsAtMostOne(prop: string, code: string, imageFilename: string, verbose: bool)
    ensures var calls := PropertyCalls(prop, code, imageFilename, verbose);
            |calls| <= 1 &&
            (|calls| == 1 <==> IsStyleProperty(prop) || IsImageProperty(prop)) &&
            (|calls| == 1 ==> calls[0] == SetProperty(prop, ValueFor(prop, code, imageFilename), verbose))
  {
    StyleAndImageExclusive(prop);
  }

  /** A monitor's ".../image-style" property is set once, to the mode's code. */
  lemma StylePropertyCalls(owner: string, code: string, imageFilename: string, verbose: bool)
    ensures var prop := owner + "/image-style";
            PropertyCalls(prop, code, imageFilename, verbose) == [SetProperty(prop, code, verbose)]
  {
    var prop := owner + "/image-style";
    EndsWithAppended(owner, "/image-style");
    assert prop[|prop| - 2] == 'l';
  }

  /** A monitor's ".../last-image" property is set once, to the image file. */
  lemma ImagePropertyCalls(owner: string, code: string, imageFilename: string, verbose: bool)
    ensures var prop := owner + "/last-image";
            PropertyCalls(prop, code, imageFilename, verbose) == [SetProperty(prop, imageFilename, verbose)]
  {
    var prop := owner + "/last-image";
    EndsWithAppended(owner, "/last-image");
    assert prop[|prop| - 2] == 'g';
  }

  /** The set commands the loop issues for the properties, in order, when none fails. */
  function SetCalls(properties: seq<string>, code: string, imageFilename: string, verbose: bool): seq<Invocation> {
    if properties == [] then []
    else
      SetCalls(properties[..|properties| - 1], code, imageFilename, verbose) +
      PropertyCalls(properties[|properties| - 1], code, imageFilename, verbose)
  }

  /** The set commands of a concatenation are those of its parts, one after the other. */
  lemma {:induction false} SetCallsAppend(a: seq<string>, b: seq<string>, code: string, imageFilename: string, verbose: bool)
    ensures SetCalls(a + b, code, imageFilename, verbose) ==
            SetCalls(a, code, imageFilename, verbose) + SetCalls(b, code, imageFilename, verbose)
    decreases |b|
  {
    if b == [] {
      assert a + b == a;
    } else {
      var init := b[..|b| - 1];
      assert (a + b)[..|a + b| - 1] == a + init;
      SetCallsAppend(a, init, code, imageFilename, verbose);
    }
  }

  /** Property i adds its own set commands to those of the properties before it. */
  lemma SetCallsStep(properties: seq<string>, i: nat, code: string, imageFilename: string, verbose: bool)
    requires i < |properties|
    ensures SetCalls(properties[..i + 1], code, imageFilename, verbose) ==
            SetCalls(properties[..i], code, imageFilename, verbose) + PropertyCalls(properties[i], code, imageFilename, verbose)
  {
    assert properties[..i + 1][..i] == properties[..i];
  }

  /** The set commands of the first i properties begin the set commands of them all. */
  lemma SetCallsPrefix(properties: seq<string>, i: nat, code: string, imageFilename: string, verbose: bool)
    requires i <= |properties|
    ensures SetCalls(properties[..i], code, imageFilename, verbose) <= SetCalls(properties, code, imageFilename, verbose)
  {
    SetCallsAppend(properties[..i], properties[i..], code, imageFilename, verbose);
    assert properties[..i] + properties[i..] == properties;
  }


  /** The properties that end in "/image-style" or "/last-image", in listing order. */
  function Tagged(properties: seq<string>): (r: seq<string>)
    ensures forall p :: p in r <==> p in properties && (IsStyleProperty(p) || IsImageProperty(p))
  {
    if properties == [] then []
    else
      var init, last := properties[..|properties| - 1], properties[|properties| - 1];
      assert properties == init + [last];
      Tagged(init) + (if IsStyleProperty(last) || IsImageProperty(last) then [last] else [])
  }

  /** The value a tagged property is set to. */
  function ValueFor(prop: string, code: string, imageFilename: string): string {
    if IsStyleProperty(prop) then code else imageFilename
  }

  /**
   * One set command per tagged property, in listing order: the style
   * properties get the code, the image properties the filename unchanged;
   * the other properties get none.
   */
  lemma {:induction false} SetCallsMatchTagged(properties: seq<string>, code: string, imageFilename: string, verbose: bool)
    ensures |SetCalls(properties, code, imageFilename, verbose)| == |Tagged(properties)|
    ensures forall i :: 0 <= i < |Tagged(properties)| ==>
              SetCalls(properties, code, imageFilename, verbose)[i] ==
              SetProperty(Tagged(properties)[i], ValueFor(Tagged(properties)[i], code, imageFilename), verbose)
  {
    if properties != [] {
      var init, last := properties[..|properties| - 1], properties[|properties| - 1];
      SetCallsMatchTagged(init, code, imageFilename, verbose);
      StyleAndImageExclusive(last);
    }
  }

  /** The index, counted from start, of the first run among n that fails; n when none fails. */
  function FirstFailure(outcomes: seq<bool>, start: nat, n: nat): (k: nat)
    ensures k <= n
    ensures forall j :: start <= j < start + k ==> Succeeds(outcomes, j)
    ensures k < n ==> !Succeeds(outcomes, start + k)
    decreases n
  {
    if n == 0 || !Succeeds(outcomes, start) then 0
    else 1 + FirstFailure(outcomes, start + 1, n - 1)
  }

  /** The first failure is the failing run that only succeeding runs precede. */
  lemma FirstFailureAt(outcomes: seq<bool>, start: nat, n: nat, k: nat)
    requires k < n
    requires forall j :: start <= j < start + k ==> Succeeds(outcomes, j)
    requires !Succeeds(outcomes, start + k)
    ensures FirstFailure(outcomes, start, n) == k
  {
  }

  /** With no failing run among the n, the first failure is n. */
  lemma FirstFailureNone(outcomes: seq<bool>, start: nat, n: nat)
    requires forall j :: start <= j < start + n ==> Succeeds(outcomes, j)
    ensures FirstFailure(outcomes, start, n) == n
  {
  }

  // ---------------------------------------------------------------- SetWallpaper, as a function

  /** The planned commands that are issued when the one with index k fails (none fails when k is past the end). */
  function UpToFailure(planned: seq<Invocation>, k: nat): seq<Invocation>
    requires k <= |planned|
  {
    if k == |planned| then planned else planned[..k + 1]
  }

  /**
   * What SetWallpaper returns and issues, given the stored mode and verbose
   * flag, the default mode, the image and whether it exists, the listing the
   * query prints, the scripted run outcomes and the index of the first run
   * this call makes.
   */
  function Expected(mode: string, verbose: bool, defaultMode: string, imageFilename: string,
                    imageExists: bool, listing: string, outcomes: seq<bool>, start: nat): (report: Report)
    ensures report.issued == [] <==> !imageExists
    ensures imageExists ==> report.issued[0] == ListQuery(verbose)
    ensures report.err == None ==> imageExists && FillMode(EffectiveMode(mode, defaultMode)).Some?
    ensures report.err.Some? && report.err.value.CommandFailed? ==>
              |report.issued| >= 2 && report.issued[|report.issued| - 1] == report.err.value.failed
  {
    if !imageExists then Report(Some(NoSuchFile(imageFilename)), [])
    else
      match FillMode(EffectiveMode(mode, defaultMode))
      case None => Report(Some(InvalidMode(mode)), [ListQuery(verbose)])
      case Some(code) =>
        var planned := SetCalls(Split(listing, '\n'), code, imageFilename, verbose);
        var k := FirstFailure(outcomes, start, |planned|);
        Report(if k == |planned| then None else Some(CommandFailed(planned[k])),
               [ListQuery(verbose)] + UpToFailure(planned, k))
  }

  /** A missing image is reported before anything is run, not even the listing query. */
  lemma MissingImageIssuesNothing(mode: string, verbose: bool, defaultMode: string, imageFilename: string,
                                  listing: string, outcomes: seq<bool>, start: nat)
    ensures Expected(mode, verbose, defaultMode, imageFilename, false, listing, outcomes, start) ==
            Report(Some(NoSuchFile(imageFilename)), [])
  {
  }

  /**
   * A mode with no code is reported after the listing query and before any
   * set command, and the error names the stored mode.
   */
  lemma InvalidModeIssuesOnlyTheQuery(mode: string, verbose: bool, defaultMode: string, imageFilename: string,
                                      listing: string, outcomes: seq<bool>, start: nat)
    requires ByteLen(EffectiveMode(mode, defaultMode)) != 1 && EffectiveMode(mode, defaultMode) !in ModeNames
    ensures Expected(mode, verbose, defaultMode, imageFilename, true, listing, outcomes, start) ==
            Report(Some(InvalidMode(mode)), [ListQuery(verbose)])
  {
  }

  /**
   * On success the query is followed by exactly one set command per tagged
   * property, in listing order, with the code or the filename unchanged.
   */
  lemma SuccessSetsEveryTaggedProperty(mode: string, verbose: bool, defaultMode: string, imageFilename: string,
                                       imageExists: bool, listing: string, outcomes: seq<bool>, start: nat)
    requires Expected(mode, verbose, defaultMode, imageFilename, imageExists, listing, outcomes, start).err == None
    ensures imageExists && FillMode(EffectiveMode(mode, defaultMode)).Some?
    ensures var report := Expected(mode, verbose, defaultMode, imageFilename, imageExists, listing, outcomes, start);
            var code := FillMode(EffectiveMode(mode, defaultMode)).value;
            var tagged := Tagged(Split(listing, '\n'));
            |report.issued| == 1 + |tagged| && report.issued[0] == ListQuery(verbose) &&
            forall i :: 0 <= i < |tagged| ==>
              report.issued[i + 1] == SetProperty(tagged[i], ValueFor(tagged[i], code, imageFilename), verbose)
    ensures forall j :: start <= j < start + |Tagged(Split(listing, '\n'))| ==> Succeeds(outcomes, j)
  {
    var code := FillMode(EffectiveMode(mode, defaultMode)).value;
    SetCallsMatchTagged(Split(listing, '\n'), code, imageFilename, verbose);
  }

  /**
   * Conversely, with the image present and a mode that has a code, the call
   * succeeds when every planned set command succeeds.
   */
  lemma AllSetsSucceedIsSuccess(mode: string, verbose: bool, defaultMode: string, imageFilename: string,
                                listing: string, outcomes: seq<bool>, start: nat)
    requires FillMode(EffectiveMode(mode, defaultMode)).Some?
    requires var planned := SetCalls(Split(listing, '\n'), FillMode(EffectiveMode(mode, defaultMode)).value,
                                     imageFilename, verbose);
             forall j :: start <= j < start + |planned| ==> Succeeds(outcomes, j)
    ensures Expected(mode, verbose, defaultMode, imageFilename, true, listing, outcomes, start).err == None
  {
    var planned := SetCalls(Split(listing, '\n'), FillMode(EffectiveMode(mode, defaultMode)).value,
                            imageFilename, verbose);
    FirstFailureNone(outcomes, start, |planned|);
  }

  /**
   * When the k-th set command fails (counting from one) after the earlier ones
   * succeeded, the call returns that failure having issued the query and
   * exactly k set commands; the earlier ones are not undone.
   */
  lemma FailedSetStopsTheCall(mode: string, verbose: bool, defaultMode: string, imageFilename: string,
                              listing: string, outcomes: seq<bool>, start: nat, k: nat)
    requires FillMode(EffectiveMode(mode, defaultMode)).Some?
    requires 1 <= k <= |SetCalls(Split(listing, '\n'), FillMode(EffectiveMode(mode, defaultMode)).value, imageFilename, verbose)|
    requires forall j :: start <= j < start + k - 1 ==> Succeeds(outcomes, j)
    requires !Succeeds(outcomes, start + k - 1)
    ensures var report := Expected(mode, verbose, defaultMode, imageFilename, true, listing, outcomes, start);
            var planned := SetCalls(Split(listing, '\n'), FillMode(EffectiveMode(mode, defaultMode)).value, imageFilename, verbose);
            report.err == Some(CommandFailed(planned[k - 1])) &&
            report.issued == [ListQuery(verbose)] + planned[..k] &&
            |report.issued| == k + 1
  {
  }

  /**
   * An empty listing (the query printed nothing, or failed) splits into the
   * single name "", which has no set command: the call succeeds after the
   * query alone.
   */
  lemma EmptyListingSetsNothing(mode: string, verbose: bool, defaultMode: string, imageFilename: string,
                                outcomes: seq<bool>, start: nat)
    requires FillMode(EffectiveMode(mode, defaultMode)).Some?
    ensures Expected(mode, verbose, defaultMode, imageFilename, true, "", outcomes, start) ==
            Report(None, [ListQuery(verbose)])
  {
    assert Split("", '\n') == [""];
    assert SetCalls([""], FillMode(EffectiveMode(mode, defaultMode)).value, imageFilename, verbose) == [];
  }

  /** The two properties xfconf-query lists for one monitor's wallpaper. */
  function MonitorProperties(owner: string): seq<string> {
    [owner + "/image-style", owner + "/last-image"]
  }

  /** A monitor's style is set to the mode's code, then its image to the image file. */
  lemma MonitorCalls(owner: string, code: string, imageFilename: string, verbose: bool)
    ensures SetCalls(MonitorProperties(owner), code, imageFilename, verbose) ==
            [SetProperty(owner + "/image-style", code, verbose), SetProperty(owner + "/last-image", imageFilename, verbose)]
  {
    var m := MonitorProperties(owner);
    StylePropertyCalls(owner, code, imageFilename, verbose);
    ImagePropertyCalls(owner, code, imageFilename, verbose);
    SetCallsStep(m, 0, code, imageFilename, verbose);
    SetCallsStep(m, 1, code, imageFilename, verbose);
    assert m[..0] == [] && m[..2] == m;
  }

  /** The properties of two monitors, as the listing query prints them. */
  const TwoMonitors: seq<string> := MonitorProperties("monitor0") + MonitorProperties("monitor1")

  /** The listing query prints the property names one per line. */
  lemma TwoMonitorsListing()
    ensures Split(Join(TwoMonitors, '\n'), '\n') == TwoMonitors
  {
    forall p | p in TwoMonitors
      ensures '\n' !in p
    {
    }
    SplitJoin(TwoMonitors, '\n');
  }

  /** Mode code 2 for both monitors: each style is set to 2, then each image to the file. */
  const TwoMonitorsSets: seq<Invocation> :=
    [SetProperty("monitor0" + "/image-style", "2", false),
     SetProperty("monitor0" + "/last-image", "/tmp/a.png", false),
     SetProperty("monitor1" + "/image-style", "2", false),
     SetProperty("monitor1" + "/last-image", "/tmp/a.png", false)]

  /** The set commands for the two monitors' properties, mode code 2. */
  lemma TwoMonitorsCalls()
    ensures SetCalls(TwoMonitors, "2", "/tmp/a.png", false) == TwoMonitorsSets
  {
    SetCallsAppend(MonitorProperties("monitor0"), MonitorProperties("monitor1"), "2", "/tmp/a.png", false);
    MonitorCalls("monitor0", "2", "/tmp/a.png", false);
    MonitorCalls("monitor1", "2", "/tmp/a.png", false);
  }

  /**
   * Two monitors (a listing such as the one TwoMonitorsListing shows) and a
   * mode whose code is 2 (Tiled, see ModeTableFirstCodes), all runs
   * succeeding: the listing query, then all four sets, and no error.
   */
  lemma TwoMonitorsTiled(mode: string, defaultMode: string, listing: string)
    requires FillMode(EffectiveMode(mode, defaultMode)) == Some("2")
    requires Split(listing, '\n') == TwoMonitors
    ensures Expected(mode, false, defaultMode, "/tmp/a.png", true, listing, [], 0) ==
            Report(None, [ListQuery(false)] + TwoMonitorsSets)
  {
    TwoMonitorsCalls();
    FirstFailureNone([], 0, |TwoMonitorsSets|);
  }

  /**
   * The same, with the third set failing: it is reported, and the fourth
   * is not run.
   */
  lemma TwoMonitorsThirdSetFails(mode: string, defaultMode: string, listing: string)
    requires FillMode(EffectiveMode(mode, defaultMode)) == Some("2")
    requires Split(listing, '\n') == TwoMonitors
    ensures Expected(mode, false, defaultMode, "/tmp/a.png", true, listing, [true, true, false], 0) ==
            Report(Some(CommandFailed(SetProperty("monitor1" + "/image-style", "2", false))),
                   [ListQuery(false)] + TwoMonitorsSets[..3])
  {
    var planned := SetCalls(TwoMonitors, "2", "/tmp/a.png", false);
    assert planned == TwoMonitorsSets by { TwoMonitorsCalls(); }
    assert FirstFailure([true, true, false], 0, |planned|) == 2 by {
      FirstFailureAt([true, true, false], 0, |planned|, 2);
    }
    assert UpToFailure(planned, 2) == planned[..3];
  }

  /**
   * Planned commands that begin with done, all of whose runs succeed, and
   * then next: when the first failure among next is at k, the first failure
   * among all the planned commands is the same command, and what is issued
   * up to it is done and next up to k.
   */
  lemma FailureWithin(outcomes: seq<bool>, start: nat, done: seq<Invocation>, next: seq<Invocation>,
                      planned: seq<Invocation>, k: nat)
    requires done + next <= planned
    requires forall j :: start <= j < start + |done| ==> Succeeds(outcomes, j)
    requires k == FirstFailure(outcomes, start + |done|, |next|) && k < |next|
    ensures FirstFailure(outcomes, start, |planned|) == |done| + k &&
            planned[|done| + k] == next[k] &&
            UpToFailure(planned, |done| + k) == done + UpToFailure(next, k)
  {
    FirstFailureAt(outcomes, start, |planned|, |done| + k);
    assert planned[..|done| + k + 1] == (done + next)[..|done| + k + 1] == done + next[..k + 1];
  }

  /**
   * A loop that has issued done, all of whose runs succeed, and then the
   * commands of one more step, next, one of which fails, stops there: its
   * result and log are those of the first failure among the planned
   * commands, which begin with done and next.
   */
  lemma StopsWithin(outcomes: seq<bool>, start: nat, count1: nat, log0: seq<Invocation>, before: seq<Invocation>,
                    log1: seq<Invocation>, err: Option<Error>, done: seq<Invocation>, next: seq<Invocation>,
                    planned: seq<Invocation>)
    requires before == log0 + done && done + next <= planned
    requires forall j :: start <= j < start + |done| ==> Succeeds(outcomes, j)
    requires var k := FirstFailure(outcomes, start + |done|, |next|);
             err == (if k == |next| then None else Some(CommandFailed(next[k]))) &&
             log1 == before + UpToFailure(next, k) &&
             count1 == start + |done| + |UpToFailure(next, k)|
    requires err.Some?
    ensures var k := FirstFailure(outcomes, start, |planned|);
            err == (if k == |planned| then None else Some(CommandFailed(planned[k]))) &&
            log1 == log0 + UpToFailure(planned, k) &&
            count1 == start + |UpToFailure(planned, k)|
  {
    var k := FirstFailure(outcomes, start + |done|, |next|);
    FailureWithin(outcomes, start, done, next, planned, k);
    AppendAssociative(log0, done, UpToFailure(next, k));
  }

  /**
   * A loop that has issued done, all of whose runs succeed, and then the
   * commands of one more step, next, none of which fails, has issued done
   * and next, all of whose runs succeed.
   */
  lemma PassesWithin(outcomes: seq<bool>, start: nat, count1: nat, log0: seq<Invocation>, before: seq<Invocation>,
                     log1: seq<Invocation>, err: Option<Error>, done: seq<Invocation>, next: seq<Invocation>)
    requires before == log0 + done
    requires forall j :: start <= j < start + |done| ==> Succeeds(outcomes, j)
    requires var k := FirstFailure(outcomes, start + |done|, |next|);
             err == (if k == |next| then None else Some(CommandFailed(next[k]))) &&
             log1 == before + UpToFailure(next, k) &&
             count1 == start + |done| + |UpToFailure(next, k)|
    requires err.None?
    ensures log1 == log0 + (done + next) && count1 == start + |done + next|
    ensures forall j :: start <= j < start + |done + next| ==> Succeeds(outcomes, j)
  {
    AppendAssociative(log0, done, next);
  }

  /**
   * The loop body's first guarded command, first, was issued and failed:
   * the body stops there, whatever the second command, second, would have been.
   */
  lemma FirstGuardFails(outcomes: seq<bool>, start: nat, log0: seq<Invocation>, log1: seq<Invocation>, err: Option<Error>,
                        first: seq<Invocation>, second: seq<Invocation>)
    requires |first| == 1 && !Succeeds(outcomes, start)
    requires log1 == log0 + first && err == Some(CommandFailed(first[0]))
    ensures var calls := first + second;
            var k := FirstFailure(outcomes, start, |calls|);
            err == (if k == |calls| then None else Some(CommandFailed(calls[k]))) &&
            log1 == log0 + UpToFailure(calls, k)
  {
    assert (first + second)[..1] == first;
  }

  /**
   * The loop body's first guarded command, first (empty when its guard is
   * false), did not fail: both are issued, and the second, second (likewise),
   * is the one that fails, if one does.
   */
  lemma FirstGuardPasses(outcomes: seq<bool>, start: nat, count1: nat, log0: seq<Invocation>, log1: seq<Invocation>,
                         err: Option<Error>, first: seq<Invocation>, second: seq<Invocation>)
    requires |first| <= 1 && |second| <= 1
    requires |first| == 1 ==> Succeeds(outcomes, start)
    requires log1 == log0 + first + second && count1 == start + |first| + |second|
    requires err == if |second| == 1 && !Succeeds(outcomes, start + |first|) then Some(CommandFailed(second[0])) else None
    ensures var calls := first + second;
            var k := FirstFailure(outcomes, start, |calls|);
            err == (if k == |calls| then None else Some(CommandFailed(calls[k]))) &&
            log1 == log0 + UpToFailure(calls, k) &&
            count1 == start + |UpToFailure(calls, k)|
  {
    var calls := first + second;
    if |second| == 1 && !Succeeds(outcomes, start + |first|) {
      FirstFailureAt(outcomes, start, |calls|, |first|);
    } else {
      FirstFailureNone(outcomes, start, |calls|);
    }
    AppendAssociative(log0, first, second);
  }

  /** Concatenation is associative; named so that proofs can regroup logs cheaply. */
  lemma AppendAssociative<T>(a: seq<T>, b: seq<T>, c: seq<T>)
    ensures (a + b) + c == a + (b + c)
  {
  }

  // ---------------------------------------------------------------- the backend

  /** The Xfce4 backend: the requested fill mode ("" for the default) and the verbose flag. */
  class Xfce4 {
    var mode: string
    var verbose: bool

    /** A backend as Go's zero value has it: no mode, not verbose. */
    constructor ()
      ensures mode == "" && !verbose
    {
      mode := "";
      verbose := false;
    }

    /** The name of this desktop environment. */
    function Name(): (name: string)
      ensures name == "Xfce4"
    {
      "Xfce4"
    }

    /** Store the fill mode for the next SetWallpaper; it is not checked here. */
    method SetMode(mode: string)
      modifies this`mode
      ensures this.mode == mode && verbose == old(verbose)
    {
      this.mode := mode;
    }

    /** Make the commands echo themselves, or not. */
    method SetVerbose(verbose: bool)
      modifies this`verbose
      ensures this.verbose == verbose && mode == old(mode)
    {
      this.verbose := verbose;
    }

    /**
     * Set the wallpaper to imageFilename. The result and the invocations
     * appended to the runner's log are those of Expected; the backend's
     * fields do not change.
     */
    method SetWallpaper(imageFilename: string, imageExists: bool, defaultMode: string, runner: Runner)
      returns (err: Option<Error>)
      modifies runner`log, runner`runs
      ensures var report := Expected(mode, verbose, defaultMode, imageFilename, imageExists,
                                     runner.listing, runner.outcomes, old(runner.runs));
              err == report.err && runner.log == old(runner.log) + report.issued &&
              runner.runs == old(runner.runs) + (if report.issued == [] then 0 else |report.issued| - 1)
    {
      if !imageExists {
        return Some(NoSuchFile(imageFilename));
      }
      ghost var start := runner.runs;

      // Find the properties of all monitors.
      var listing := runner.Output(XfconfQuery, ListArguments, verbose);
      var properties := Split(listing, '\n');
      if |properties| == 0 {
        // strings.Split never returns an empty list: "could not find any properties" is never returned.
        assert false;
      }

      var fillMode := FillMode(EffectiveMode(mode, defaultMode));
      if fillMode.None? {
        return Some(InvalidMode(mode));
      }
      err := SetProperties(properties, fillMode.value, imageFilename, runner);
      ghost var planned := SetCalls(properties, fillMode.value, imageFilename, verbose);
      AppendAssociative(old(runner.log), [ListQuery(verbose)],
                        UpToFailure(planned, FirstFailure(runner.outcomes, start, |planned|)));
    }

    /**
     * The loop of SetWallpaper: the properties in order, stopping at the
     * first command that fails.
     */
    method SetProperties(properties: seq<string>, code: string, imageFilename: string, runner: Runner)
      returns (err: Option<Error>)
      modifies runner`log, runner`runs
      ensures var planned := SetCalls(properties, code, imageFilename, verbose);
              var k := FirstFailure(runner.outcomes, old(runner.runs), |planned|);
              err == (if k == |planned| then None else Some(CommandFailed(planned[k]))) &&
              runner.log == old(runner.log) + UpToFailure(planned, k) &&
              runner.runs == old(runner.runs) + |UpToFailure(planned, k)|
    {
      err := None;
      ghost var start := runner.runs;
      ghost var planned := SetCalls(properties, code, imageFilename, verbose);
      ghost var done: seq<Invocation> := [];
      for i := 0 to |properties|
        invariant done == SetCalls(properties[..i], code, imageFilename, verbose)
        invariant runner.log == old(runner.log) + done
        invariant runner.runs == start + |done|
        invariant forall j :: start <= j < start + |done| ==> Succeeds(runner.outcomes, j)
        invariant err == None
      {
        ghost var next := PropertyCalls(properties[i], code, imageFilename, verbose);
        SetCallsStep(properties, i, code, imageFilename, verbose);
        ghost var before := runner.log;
        err := ApplyProperty(properties[i], code, imageFilename, runner);
        if err.Some? {
          SetCallsPrefix(properties, i + 1, code, imageFilename, verbose);
          StopsWithin(runner.outcomes, start, runner.runs, old(runner.log), before, runner.log, err, done, next, planned);
          return;
        }
        PassesWithin(runner.outcomes, start, runner.runs, old(runner.log), before, runner.log, err, done, next);
        done := done + next;
      }
      assert properties[..|properties|] == properties;
      FirstFailureNone(runner.outcomes, start, |planned|);
    }

    /**
     * The body of the loop, for one property: set it to code when it ends in
     * "/image-style", then to imageFilename when it ends in "/last-image",
     * returning at the first command that fails.
     */
    method ApplyProperty(prop: string, code: string, imageFilename: string, runner: Runner)
      returns (err: Option<Error>)
      modifies runner`log, runner`runs
      ensures var calls := PropertyCalls(prop, code, imageFilename, verbose);
              var k := FirstFailure(runner.outcomes, old(runner.runs), |calls|);
              err == (if k == |calls| then None else Some(CommandFailed(calls[k]))) &&
              runner.log == old(runner.log) + UpToFailure(calls, k) &&
              runner.runs == old(runner.runs) + |UpToFailure(calls, k)|
    {
      ghost var log0 := runner.log;
      ghost var start := runner.runs;
      ghost var style := if IsStyleProperty(prop) then [SetProperty(prop, code, verbose)] else [];
      ghost var image := if IsImageProperty(prop) then [SetProperty(prop, imageFilename, verbose)] else [];
      assert PropertyCalls(prop, code, imageFilename, verbose) == style + image;
      err := SetIf(IsStyleProperty(prop), prop, code, runner);
      if err.Some? {
        FirstGuardFails(runner.outcomes, start, log0, runner.log, err, style, image);
        return;
      }
      err := SetIf(IsImageProperty(prop), prop, imageFilename, runner);
      FirstGuardPasses(runner.outcomes, start, runner.runs, log0, runner.log, err, style, image);
    }

    /**
     * One guarded set command of the loop body: when cond holds, set prop to
     * value, and report the command as failed when it fails.
     */
    method SetIf(cond: bool, prop: string, value: string, runner: Runner) returns (err: Option<Error>)
      modifies runner`log, runner`runs
      ensures runner.log == old(runner.log) + (if cond then [SetProperty(prop, value, verbose)] else [])
      ensures runner.runs == old(runner.runs) + (if cond then 1 else 0)
      ensures err == if cond && !Succeeds(runner.outcomes, old(runner.runs))
                     then Some(CommandFailed(SetProperty(prop, value, verbose))) else None
    {
      if cond {
        var ok := runner.Run(XfconfQuery, SetArguments(prop, value), verbose);
        if !ok {
          return Some(CommandFailed(SetProperty(prop, value, verbose)));
        }
      }
      return None;
    }
  }
}
