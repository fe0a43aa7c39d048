/**
  The session state of the estimator page and its handlers (estimatorMap.py,
  lines 29-59, 114-133, 138-148, 155-168, 179-228).

  Each field is one `st.session_state` key.  Coordinates are kept as whole
  multiples of 0.0001 degree, which is what `round(x, 4)` leaves.  The map
  widget, the resource-fetch client and the simulation engine are parameters.
*/
module SessionState {
  import opened Wrappers
  import CacheEviction
  import SimulationParameters

  /** A selected point, each coordinate in units of 0.0001 degree. */
  datatype Location = Location(latitude: int, longitude: int)

  /** A click as the map widget reports it, `{"lat": .., "lng": ..}`. */
  datatype Click = Click(lat: real, lng: real)

  /** What the map widget returns: the last click on the map and the last click on a marker. */
  datatype MapData = MapData(lastClicked: Option<Click>, lastObjectClicked: Option<Click>)

  datatype CalculateOutcome = NoLocationSelected | Started

  /** How one pass through the processing block ends. */
  datatype RunOutcome = Idle | FetchFailed | ConfigLoadFailed | SimulationFailed | Published(monthly: seq<real>)

  /** What is shown under the result headers (lines 228-232). */
  datatype Report = Report(total: real, location: Option<Location>, aerator: string, tilt: int)

  /** `round(x, 4)`, as a count of 0.0001 units: the nearest one, ties to the even one. */
  function Round4(x: real): (r: int)
    ensures -0.5 <= x * 10000.0 - r as real <= 0.5
    ensures x * 10000.0 - r as real == 0.5 || x * 10000.0 - r as real == -0.5 ==> r % 2 == 0
  {
    var y := x * 10000.0;
    var f := y.Floor;
    if y - f as real < 0.5 then f
    else if y - f as real > 0.5 then f + 1
    else if f % 2 == 0 then f
    else f + 1
  }

  function RoundLocation(c: Click): Location {
    Location(Round4(c.lat), Round4(c.lng))
  }

  /** The widget reports a click and it differs from the one stored. */
  predicate IsNewClick(stored: Option<Click>, reported: Option<Click>) {
    reported.Some? && stored != reported
  }

  /** `sum(...)` of the monthly values. */
  function Sum(s: seq<real>): real {
    if s == [] then 0.0 else s[0] + Sum(s[1..])
  }

  /**
    The simulation engine: from its inputs, and whether the resource file they
    name is still in the directory when `execute()` runs, to the monthly output,
    or to nothing when `execute()` raises.
  */
  type Engine = (map<string, SimulationParameters.Value>, bool) -> Option<seq<real>>

  /**
    The removal outcome the clean-up after fetching `path` sees: as given, or,
    when `spareFetched`, with the removal of `path` itself skipped.
  */
  function Cleanup(removable: string -> bool, path: string, spareFetched: bool): string -> bool {
    if spareFetched then CacheEviction.Sparing(removable, path) else removable
  }

  /**
    The outcome of the processing block for the point it fetches for, with its
    collaborators; `listing` is the resource directory as the fetch leaves it.
  */
  function RunResult(location: Location, aerator: string, tilt: int, fetch: Location -> Option<string>,
                     listing: seq<CacheEviction.Entry>, removable: string -> bool, spareFetched: bool,
                     templates: map<string, SimulationParameters.Template>, engine: Engine): (r: RunOutcome)
    ensures r == FetchFailed <==> fetch(location).None?
    ensures r != Idle
  {
    match fetch(location)
    case None => FetchFailed
    case Some(path) => SimulationOutcome(path, aerator, tilt, listing, removable, spareFetched, templates, engine)
  }

  /**
    The rest of the processing block once the resource file `path` is fetched:
    the template of the aerator, then the engine on the inputs it gives, told
    whether `path` is still in the directory after the clean-up.
  */
  function SimulationOutcome(path: string, aerator: string, tilt: int,
                             listing: seq<CacheEviction.Entry>, removable: string -> bool, spareFetched: bool,
                             templates: map<string, SimulationParameters.Template>, engine: Engine): (r: RunOutcome)
    ensures r == ConfigLoadFailed <==> SimulationParameters.TemplatePath(aerator) !in templates
    ensures r.Published? || r == ConfigLoadFailed || r == SimulationFailed
  {
    var templatePath := SimulationParameters.TemplatePath(aerator);
    if templatePath !in templates then ConfigLoadFailed
    else
      var present := path in CacheEviction.Paths(CacheEviction.Evicted(listing, Cleanup(removable, path, spareFetched)));
      match engine(SimulationParameters.Inputs(templates[templatePath], tilt, path), present)
      case None => SimulationFailed
      case Some(monthly) => Published(monthly)
  }

  class Session {
    var selectedLocation: Option<Location>
    var lastClicked: Option<Click>
    var lastObjectClicked: Option<Click>
    var selectedAerator: string
    var tilt: int
    var calculatedAerator: string
    var calculatedTilt: int
    var calculatedLocation: Option<Location>
    var processing: bool
    var energyOutput: Option<seq<real>>

    /**
      A run only starts with a point selected, whose snapshot is then taken, and
      the tilt input keeps tilts in [0, 90].
    */
    ghost predicate Valid()
      reads this
    {
      (processing ==> selectedLocation.Some? && calculatedLocation.Some?) &&
      0 <= tilt <= 90 && 0 <= calculatedTilt <= 90
    }

    /** Lines 29-59: the keys a new session starts with. */
    constructor ()
      ensures Valid()
      ensures selectedLocation == None && lastClicked == None && lastObjectClicked == None
      ensures selectedAerator == "2-Panel" && tilt == 15
      ensures calculatedAerator == "2-Panel" && calculatedTilt == 15 && calculatedLocation == None
      ensures !processing && energyOutput == None
    {
      selectedLocation, lastClicked, lastObjectClicked := None, None, None;
      selectedAerator, tilt := "2-Panel", 15;
      calculatedAerator, calculatedTilt, calculatedLocation := "2-Panel", 15, None;
      processing, energyOutput := false, None;
    }

    /**
      Lines 114-133.  A click that differs from the stored one is stored and
      selects its rounded point; `st.rerun()` then ends the pass, so a marker
      click is looked at only when the map click is not new.
    */
    method HandleMapData(data: Option<MapData>) returns (rerun: bool)
      requires Valid()
      modifies this`selectedLocation, this`lastClicked, this`lastObjectClicked
      ensures Valid()
      ensures var mapClick := data.Some? && IsNewClick(old(lastClicked), data.value.lastClicked);
        var markerClick := data.Some? && IsNewClick(old(lastObjectClicked), data.value.lastObjectClicked);
        && rerun == (mapClick || markerClick)
        && (mapClick ==>
              lastClicked == data.value.lastClicked &&
              selectedLocation == Some(RoundLocation(data.value.lastClicked.value)) &&
              lastObjectClicked == old(lastObjectClicked))
        && (!mapClick && markerClick ==>
              lastObjectClicked == data.value.lastObjectClicked &&
              selectedLocation == Some(RoundLocation(data.value.lastObjectClicked.value)) &&
              lastClicked == old(lastClicked))
        && (!rerun ==>
              lastClicked == old(lastClicked) && lastObjectClicked == old(lastObjectClicked) &&
              selectedLocation == old(selectedLocation))
      // the same map data a second time is never a new map click
      ensures data.Some? ==> !IsNewClick(lastClicked, data.value.lastClicked)
      ensures data.Some? && !IsNewClick(old(lastClicked), data.value.lastClicked) ==>
        !IsNewClick(lastObjectClicked, data.value.lastObjectClicked)
      // a click never changes the result shown, once it names the point it was calculated for
      ensures ShownResultForCalculatedPoint() == old(ShownResultForCalculatedPoint())
    {
      if data.Some? && IsNewClick(lastClicked, data.value.lastClicked) {
        lastClicked := data.value.lastClicked;
        selectedLocation := Some(RoundLocation(data.value.lastClicked.value));
        rerun := true;
        return;
      }
      if data.Some? && IsNewClick(lastObjectClicked, data.value.lastObjectClicked) {
        lastObjectClicked := data.value.lastObjectClicked;
        selectedLocation := Some(RoundLocation(data.value.lastObjectClicked.value));
        rerun := true;
        return;
      }
      rerun := false;
    }

    /** Lines 138-144: the aerator select box. */
    method SelectAerator(aerator: string)
      requires Valid()
      modifies this`selectedAerator
      ensures Valid() && selectedAerator == aerator
    {
      selectedAerator := aerator;
    }

    /** Lines 147-148: the tilt input, which only yields values in [0, 90]. */
    method SetTilt(t: int)
      requires Valid() && 0 <= t <= 90
      modifies this`tilt
      ensures Valid() && tilt == t
    {
      tilt := t;
    }

    /**
      Lines 155-163: the Calculate button.  Without a selected point it reports
      an error and changes nothing; otherwise it starts processing and snapshots
      the aerator, the tilt and the point.
    */
    method PressCalculate() returns (outcome: CalculateOutcome)
      requires Valid()
      modifies this`processing, this`calculatedAerator, this`calculatedTilt, this`calculatedLocation
      ensures Valid()
      ensures outcome == NoLocationSelected <==> selectedLocation.None?
      ensures selectedLocation.None? ==>
        processing == old(processing) && calculatedAerator == old(calculatedAerator) &&
        calculatedTilt == old(calculatedTilt) && calculatedLocation == old(calculatedLocation)
      ensures selectedLocation.Some? ==>
        processing && calculatedAerator == selectedAerator && calculatedTilt == tilt &&
        calculatedLocation == selectedLocation
    {
      if selectedLocation.None? {
        outcome := NoLocationSelected;
      } else {
        processing := true;
        calculatedAerator := selectedAerator;
        calculatedTilt := tilt;
        calculatedLocation := selectedLocation;
        outcome := Started;
      }
    }

    /**
      Lines 166-224: while processing, clear the result, fetch the resource file
      for the selected point (line 179), clean up the directory, assemble the
      inputs from the template of the calculated aerator and run the engine on
      the resource file in the cleaned-up directory.  A fetch, a template read
      or a simulation that raises ends the pass with `processing` still set; a
      result is published and `processing` cleared only on success.  `dir` is
      the resource directory as the fetch leaves it.
    */
    method Process(fetch: Location -> Option<string>, dir: CacheEviction.ResourceDir,
                   removable: string -> bool,
                   templates: map<string, SimulationParameters.Template>, engine: Engine)
      returns (outcome: RunOutcome)
      requires Valid() && dir.Valid()
      modifies this`energyOutput, this`processing, dir
      ensures Valid() && dir.Valid()
      ensures !old(processing) ==>
        outcome == Idle && !processing && energyOutput == old(energyOutput) && dir.entries == old(dir.entries)
      ensures old(processing) ==>
        outcome == RunResult(selectedLocation.value, calculatedAerator, calculatedTilt, fetch,
                             old(dir.entries), removable, false, templates, engine)
      ensures old(processing) ==>
        processing == !outcome.Published? &&
        energyOutput == (if outcome.Published? then Some(outcome.monthly) else None)
      ensures old(processing) ==>
        dir.entries == if outcome == FetchFailed then old(dir.entries)
                       else CacheEviction.Evicted(old(dir.entries), removable)
    {
      if !processing {
        outcome := Idle;
        return;
      }
      outcome := RunPass(selectedLocation.value, false, fetch, dir, removable, templates, engine);
    }

    /**
      The processing block with the fetch for the point Calculate was pressed
      for, the snapshot taken at line 163, in place of the live selection, and a
      clean-up that leaves the fetched resource file in place.
    */
    method ProcessCorrected(fetch: Location -> Option<string>, dir: CacheEviction.ResourceDir,
                            removable: string -> bool,
                            templates: map<string, SimulationParameters.Template>, engine: Engine)
      returns (outcome: RunOutcome)
      requires Valid() && dir.Valid()
      modifies this`energyOutput, this`processing, dir
      ensures Valid() && dir.Valid()
      ensures !old(processing) ==>
        outcome == Idle && !processing && energyOutput == old(energyOutput) && dir.entries == old(dir.entries)
      ensures old(processing) ==>
        outcome == RunResult(calculatedLocation.value, calculatedAerator, calculatedTilt, fetch,
                             old(dir.entries), removable, true, templates, engine)
      ensures old(processing) ==>
        processing == !outcome.Published? &&
        energyOutput == (if outcome.Published? then Some(outcome.monthly) else None)
      ensures old(processing) && outcome != FetchFailed ==>
        var path := fetch(calculatedLocation.value).value;
        dir.entries == CacheEviction.Evicted(old(dir.entries), CacheEviction.Sparing(removable, path)) &&
        (path in CacheEviction.Paths(old(dir.entries)) ==> path in CacheEviction.Paths(dir.entries))
      // what is shown next is the result for the very point that was fetched
      ensures old(processing) && outcome.Published? ==>
        ShownResultForCalculatedPoint() ==
          Some(Report(Sum(outcome.monthly), calculatedLocation, calculatedAerator, calculatedTilt))
    {
      if !processing {
        outcome := Idle;
        return;
      }
      var listing := dir.entries;
      outcome := RunPass(calculatedLocation.value, true, fetch, dir, removable, templates, engine);
      if outcome != FetchFailed {
        CacheEviction.SparingKeepsInUse(listing, removable, fetch(calculatedLocation.value).value);
      }
    }

    /**
      One pass of the processing block, with the resource file fetched for
      `location`; when `spareFetched`, the clean-up leaves that file in place.
    */
    method RunPass(location: Location, spareFetched: bool, fetch: Location -> Option<string>,
                   dir: CacheEviction.ResourceDir, removable: string -> bool,
                   templates: map<string, SimulationParameters.Template>, engine: Engine)
      returns (outcome: RunOutcome)
      requires Valid() && dir.Valid() && processing
      modifies this`energyOutput, this`processing, dir
      ensures Valid() && dir.Valid()
      ensures outcome == RunResult(location, calculatedAerator, calculatedTilt, fetch,
                                   old(dir.entries), removable, spareFetched, templates, engine)
      ensures processing == !outcome.Published?
      ensures energyOutput == if outcome.Published? then Some(outcome.monthly) else None
      ensures dir.entries == if outcome == FetchFailed then old(dir.entries)
                             else CacheEviction.Evicted(old(dir.entries),
                                    Cleanup(removable, fetch(location).value, spareFetched))
    {
      energyOutput := None;
      var fetched := fetch(location);
      if fetched.None? {
        outcome := FetchFailed;
        return;
      }
      outcome := Simulate(fetched.value, spareFetched, dir, removable, templates, engine);
    }

    /**
      Lines 191-224, after the fetch of `path`: the clean-up, the template of the
      calculated aerator, the inputs and the engine run.
    */
    method Simulate(path: string, spareFetched: bool, dir: CacheEviction.ResourceDir, removable: string -> bool,
                    templates: map<string, SimulationParameters.Template>, engine: Engine)
      returns (outcome: RunOutcome)
      requires Valid() && dir.Valid() && processing && energyOutput == None
      modifies this`energyOutput, this`processing, dir
      ensures Valid() && dir.Valid()
      ensures outcome == SimulationOutcome(path, calculatedAerator, calculatedTilt,
                                           old(dir.entries), removable, spareFetched, templates, engine)
      ensures processing == !outcome.Published?
      ensures energyOutput == if outcome.Published? then Some(outcome.monthly) else None
      ensures dir.entries == CacheEviction.Evicted(old(dir.entries), Cleanup(removable, path, spareFetched))
    {
      var _ := dir.Evict(Cleanup(removable, path, spareFetched));
      var templatePath := SimulationParameters.TemplatePath(calculatedAerator);
      if templatePath !in templates {
        outcome := ConfigLoadFailed;
        return;
      }
      var pv := SimulationParameters.Configure(templates[templatePath], calculatedTilt, path);
      var result := engine(pv.inputs, path in CacheEviction.Paths(dir.entries));
      if result.None? {
        outcome := SimulationFailed;
        return;
      }
      energyOutput := result;
      outcome := Published(result.value);
      processing := false;
    }

    /** Lines 227-232 as written: the point shown with the result is the live selection. */
    function ShownResult(): (r: Option<Report>)
      reads this
      ensures r.Some? <==> energyOutput.Some?
      ensures r.Some? ==> r.value.total == Sum(energyOutput.value) && r.value.location == selectedLocation
      ensures r.Some? ==> r.value.aerator == calculatedAerator && r.value.tilt == calculatedTilt
    {
      if energyOutput.None? then None
      else Some(Report(Sum(energyOutput.value), selectedLocation, calculatedAerator, calculatedTilt))
    }

    /** Lines 227-232 with the point Calculate was pressed for, as stored at line 163. */
    function ShownResultForCalculatedPoint(): (r: Option<Report>)
      reads this
      ensures r.Some? <==> energyOutput.Some?
      ensures r.Some? ==> r.value.total == Sum(energyOutput.value) && r.value.location == calculatedLocation
      ensures r.Some? ==> r.value.aerator == calculatedAerator && r.value.tilt == calculatedTilt
    {
      if energyOutput.None? then None
      else Some(Report(Sum(energyOutput.value), calculatedLocation, calculatedAerator, calculatedTilt))
    }
  }

  // ---------------------------------------------------------------------------
  // Scenarios

  /** The point of the default map centre, Lexington, KY, in 0.0001 degree units. */
  const Lexington: Location := Location(380367, -845078)

  /** The point (40, -80), in 0.0001 degree units. */
  const Elsewhere: Location := Location(400000, -800000)

  /** The resource file the fetch writes for Lexington. */
  const LexingtonFile: string := "solar_data/nsrdb_38.0367_-84.5078_psm3-tmy_60_tmy.csv"

  /** The resource file the fetch writes for (40, -80). */
  const ElsewhereFile: string := "solar_data/nsrdb_40.0_-80.0_psm3-tmy_60_tmy.csv"

  /** An engine that yields 100 kWh in each month, and raises when its resource file is missing. */
  function HundredPerMonth(inputs: map<string, SimulationParameters.Value>, resourcePresent: bool): Option<seq<real>> {
    if resourcePresent then Some(seq(12, _ => 100.0)) else None
  }

  /** A click at Lexington, the default aerator and tilt, and Calculate. */
  method CalculateAtLexington() returns (session: Session)
    ensures fresh(session) && session.Valid() && session.processing && session.energyOutput == None
    ensures session.lastClicked == Some(Click(38.0367, -84.5078))
    ensures session.selectedLocation == Some(Lexington) && session.calculatedLocation == Some(Lexington)
    ensures session.calculatedAerator == "2-Panel" && session.calculatedTilt == 15
  {
    Round4OnGrid(380367);
    Round4OnGrid(-845078);
    session := new Session();
    var rerun := session.HandleMapData(Some(MapData(Some(Click(38.0367, -84.5078)), None)));
    var started := session.PressCalculate();
  }

  /**
    A click at Lexington, the default aerator and tilt, Calculate, and one
    processing pass whose engine yields 100 kWh in each month.
  */
  method RunAtLexington() returns (session: Session)
    ensures fresh(session) && session.Valid() && !session.processing
    ensures session.lastClicked == Some(Click(38.0367, -84.5078))
    ensures session.selectedLocation == Some(Lexington) && session.calculatedLocation == Some(Lexington)
    ensures session.calculatedAerator == "2-Panel" && session.calculatedTilt == 15
    ensures session.energyOutput == Some(seq(12, _ => 100.0))
  {
    session := CalculateAtLexington();
    var listing := [CacheEviction.Entry(LexingtonFile, 0)];
    var templates := map[SimulationParameters.TwoPanelTemplate := map[]];
    LexingtonPass(listing, templates);
    var dir := new CacheEviction.ResourceDir(listing);
    var outcome := session.Process(FetchLexingtonFile, dir, AnyRemovable, templates, HundredPerMonth);
  }

  /** A fetch that writes the Lexington resource file. */
  function FetchLexingtonFile(location: Location): Option<string> {
    Some(LexingtonFile)
  }

  /** A directory whose files can all be removed. */
  predicate AnyRemovable(path: string) {
    true
  }

  /** Over a directory holding only the fetched file, the Lexington pass publishes the engine's months. */
  lemma LexingtonPass(listing: seq<CacheEviction.Entry>, templates: map<string, SimulationParameters.Template>)
    requires listing == [CacheEviction.Entry(LexingtonFile, 0)]
    requires templates == map[SimulationParameters.TwoPanelTemplate := map[]]
    ensures RunResult(Lexington, "2-Panel", 15, FetchLexingtonFile, listing, AnyRemovable, false, templates,
                      HundredPerMonth) == Published(seq(12, _ => 100.0))
  {
  }

  /** The annual total shown for twelve months of 100 kWh is 1200 kWh. */
  method LexingtonReport() returns (shown: Option<Report>)
    ensures shown == Some(Report(1200.0, Some(Lexington), "2-Panel", 15))
  {
    var session := RunAtLexington();
    SumConstant(12, 100.0);
    shown := session.ShownResult();
  }

  /**
    After the result for Lexington is shown, a click at (40, -80) moves the
    point shown with it under line 232, though the result is still Lexington's.
  */
  method CaptionDrift() returns (asWritten: Option<Report>, corrected: Option<Report>)
    ensures asWritten.Some? && asWritten.value.location == Some(Elsewhere)
    ensures corrected.Some? && corrected.value.location == Some(Lexington)
    ensures asWritten.value.total == corrected.value.total
  {
    var session := RunAtLexington();
    var rerun := session.HandleMapData(Some(MapData(Some(Click(40.0, -80.0)), None)));
    asWritten := session.ShownResult();
    corrected := session.ShownResultForCalculatedPoint();
  }

  /** A fetch that raises for Lexington (a time-out, say) and succeeds everywhere else. */
  function FetchFailingAtLexington(location: Location): Option<string> {
    if location == Lexington then None else Some(ElsewhereFile)
  }

  /**
    A click at Lexington, Calculate, a pass whose fetch raises, then a click at
    (40, -80): `processing` is still set and the snapshot is still Lexington.
  */
  method FailedThenMoved() returns (session: Session, first: RunOutcome)
    ensures fresh(session) && session.Valid() && session.processing
    ensures first == FetchFailed
    ensures session.selectedLocation == Some(Elsewhere) && session.calculatedLocation == Some(Lexington)
    ensures session.calculatedAerator == "2-Panel" && session.calculatedTilt == 15
  {
    session := new Session();
    var rerun := session.HandleMapData(Some(MapData(Some(Click(38.0367, -84.5078)), None)));
    var started := session.PressCalculate();
    var dir := new CacheEviction.ResourceDir([]);
    first := session.Process(FetchFailingAtLexington, dir, _ => true,
      map[SimulationParameters.TwoPanelTemplate := map[]], HundredPerMonth);
    rerun := session.HandleMapData(Some(MapData(Some(Click(40.0, -80.0)), None)));
  }

  /**
    After the failed pass and the click, the next rerun of the page publishes a
    result without Calculate being pressed again: it fetches for the new point
    (the fetch for Lexington would still fail), while the snapshot shown with
    the result stays Lexington.
  */
  method RetryAfterClick() returns (outcome: RunOutcome, shownFor: Option<Location>)
    ensures outcome == Published(seq(12, _ => 100.0)) && shownFor == Some(Lexington)
  {
    var session, _ := FailedThenMoved();
    var dir := new CacheEviction.ResourceDir([CacheEviction.Entry(ElsewhereFile, 0)]);
    outcome := session.Process(FetchFailingAtLexington, dir, _ => true,
      map[SimulationParameters.TwoPanelTemplate := map[]], HundredPerMonth);
    shownFor := session.ShownResultForCalculatedPoint().value.location;
  }

  /** The same sequence with the corrected pass, which retries Lexington. */
  method RetryAfterClickCorrected() returns (outcome: RunOutcome)
    ensures outcome == FetchFailed
  {
    var session, _ := FailedThenMoved();
    var dir := new CacheEviction.ResourceDir([]);
    outcome := session.ProcessCorrected(FetchFailingAtLexington, dir, _ => true,
      map[SimulationParameters.TwoPanelTemplate := map[]], HundredPerMonth);
  }

  /**
    As written (lines 191-220): when the fetch hands back a file it already had,
    which keeps its old modification time, and that file is among the oldest of
    a directory over the limit, the clean-up removes it and the engine is then
    run on a file that is gone; an engine that raises on a missing file fails
    the pass although the fetch succeeded.
  */
  lemma PrunedResourceFile(location: Location, path: string, aerator: string, tilt: int,
                           fetch: Location -> Option<string>, listing: seq<CacheEviction.Entry>,
                           removable: string -> bool, templates: map<string, SimulationParameters.Template>)
    requires fetch(location) == Some(path)
    requires path in CacheEviction.Paths(CacheEviction.Selected(listing, CacheEviction.MaxFiles)) && removable(path)
    requires SimulationParameters.TemplatePath(aerator) in templates
    ensures path !in CacheEviction.Paths(CacheEviction.Evicted(listing, removable))
    ensures RunResult(location, aerator, tilt, fetch, listing, removable, false, templates, HundredPerMonth)
              == SimulationFailed
  {
    CacheEviction.SelectedRemoved(listing, removable, path);
  }

  /** The same pass with the fetched file spared by the clean-up runs on it and publishes. */
  lemma SparedResourceFile(location: Location, path: string, aerator: string, tilt: int,
                           fetch: Location -> Option<string>, listing: seq<CacheEviction.Entry>,
                           removable: string -> bool, templates: map<string, SimulationParameters.Template>)
    requires fetch(location) == Some(path)
    requires path in CacheEviction.Paths(listing)
    requires SimulationParameters.TemplatePath(aerator) in templates
    ensures path in CacheEviction.Paths(CacheEviction.Evicted(listing, Cleanup(removable, path, true)))
    ensures RunResult(location, aerator, tilt, fetch, listing, removable, true, templates, HundredPerMonth)
              == Published(seq(12, _ => 100.0))
  {
    CacheEviction.SparingKeepsInUse(listing, removable, path);
  }

  // ---------------------------------------------------------------------------
  // Lemmas

  /** A coordinate already on the 0.0001 grid rounds to itself. */
  lemma Round4OnGrid(n: int)
    ensures Round4(n as real / 10000.0) == n
  {
  }

  /** Two coordinates 0.00002 degree apart can still round to different points. */
  lemma NearbyCoordinatesMayDiffer()
    ensures Round4(0.00004) == 0 && Round4(0.00006) == 1
  {
  }

  /** `Round4` is the only rounding with its two properties. */
  lemma Round4Unique(x: real, r: int)
    requires -0.5 <= x * 10000.0 - r as real <= 0.5
    requires x * 10000.0 - r as real == 0.5 || x * 10000.0 - r as real == -0.5 ==> r % 2 == 0
    ensures r == Round4(x)
  {
  }

  /** `Sum` gives the total `sum` reaches by adding the months from the first to the last. */
  lemma {:induction false} SumLeftToRight(s: seq<real>)
    requires s != []
    ensures Sum(s) == Sum(s[..|s| - 1]) + s[|s| - 1]
  {
    if |s| > 1 {
      SumLeftToRight(s[1..]);
      assert s[..|s| - 1][1..] == s[1..][..|s[1..]| - 1];
    }
  }

  /** `n` months of `c` each total `n * c`. */
  lemma {:induction false} SumConstant(n: nat, c: real)
    ensures Sum(seq(n, _ => c)) == n as real * c
  {
    var months := seq(n, _ => c);
    if n > 0 {
      assert months[1..] == seq(n - 1, _ => c);
      SumConstant(n - 1, c);
      assert Sum(months) == c + (n - 1) as real * c;
    }
  }
}
