/**
 * The controller of the webcam pulse application (`getPulseApp`), with its
 * input and output taken out: which cameras answer is an input, the pressed
 * key and the clock reading are parameters, and windows, printing, the CSV
 * file and the exit are recorded as effects in a ghost log.
 */
module GetPulse {
  import opened Wrappers
  import opened Text

  /** UDP port used when the `--udp` argument names only a host. */
  const DefaultUdpPort: int := 5005
  /** Camera indices 0, 1 and 2 are probed. */
  const MaxCameras: nat := 3
  /** The escape key ends the program. */
  const EscKey: int := 27
  const CsvPrefix: string := "Webcam-pulse"

  // ---------------------------------------------------------------------
  // The `--udp ip[:port]` argument
  // ---------------------------------------------------------------------

  datatype Endpoint = Endpoint(host: string, port: int)

  /** Why Python raises while unpacking the argument. */
  datatype UdpError =
    | TooManyFields(fields: nat)   // `ip, port = udp.split(":")` with more than one `:`
    | BadPort(text: string)        // `int(port)` refuses the text after the `:`

  /**
   * The UDP destination, `None` when results are not sent. An empty or
   * missing argument disables UDP; a bare host gets the default port; one `:`
   * separates host and port; a second `:` or a port `int()` refuses is an error.
   */
  function ParseUdp(arg: Option<string>): (r: Result<Option<Endpoint>, UdpError>)
    ensures r == Success(None) <==> arg == None || arg == Some([])
    ensures arg.Some? && arg.value != [] && ':' !in arg.value ==>
      r == Success(Some(Endpoint(arg.value, DefaultUdpPort)))
    ensures arg.Some? && CountChar(arg.value, ':') > 1 ==>
      r == Failure(TooManyFields(CountChar(arg.value, ':') + 1))
    ensures r.Success? && r.value.Some? ==> ':' !in r.value.value.host
  {
    match arg
    case None => Success(None)
    case Some(udp) =>
      if udp == [] then Success(None)
      else if ':' !in udp then
        CountCharZero(udp, ':');
        Success(Some(Endpoint(udp, DefaultUdpPort)))
      else
        var fields := Split(udp, ':');
        if |fields| != 2 then Failure(TooManyFields(|fields|))
        else
          assert fields[0] in fields;
          match ParseInt(fields[1])
          case None => Failure(BadPort(fields[1]))
          case Some(port) => Success(Some(Endpoint(fields[0], port)))
  }

  /** With exactly one `:`, the host is what precedes it and the port is `int()` of what follows. */
  lemma ParseUdpHostPort(host: string, text: string)
    requires ':' !in host && ':' !in text
    ensures ParseUdp(Some(host + ":" + text)) ==
      match ParseInt(text)
      case None => Failure(BadPort(text))
      case Some(p) => Success(Some(Endpoint(host, p)))
  {
    var udp := host + ":" + text;
    assert udp[|host|] == ':';
    SplitAtOnly(host, text, ':');
  }

  /** The argument that names `e`: `host:port`. */
  function FormatEndpoint(e: Endpoint): string
  {
    e.host + ":" + FormatInt(e.port)
  }

  /**
   * Every destination with a `:`-free host and a port of at most
   * `MaxStrDigits` digits is read back from its `host:port` form.
   */
  lemma UdpRoundTrip(e: Endpoint)
    requires ':' !in e.host
    requires |FormatNat(if e.port < 0 then -e.port else e.port)| <= MaxStrDigits
    ensures ParseUdp(Some(FormatEndpoint(e))) == Success(Some(Endpoint(e.host, e.port)))
  {
    var f := FormatInt(e.port);
    assert ParseInt(f) == Some(e.port) by {
      ParseIntFormat(e.port, [], []);
      assert [] + f + [] == f;
    }
    FormatIntNoColon(e.port);
    ParseUdpHostPort(e.host, f);
  }

  lemma FormatIntNoColon(n: int)
    ensures ':' !in FormatInt(n)
  {
    var digits := FormatNat(if n < 0 then -n else n);
    assert forall i :: 0 <= i < |digits| ==> digits[i] != ':';
  }

  // ---------------------------------------------------------------------
  // The camera list
  // ---------------------------------------------------------------------

  /** A probed camera: its device index and whether a first frame could be read. */
  datatype Camera = Camera(index: nat, valid: bool)

  /**
   * What the probing loop leaves: between one and three cameras, numbered from
   * 0 in order, where every camera after the first is valid.
   */
  predicate WellFormedCameras(cameras: seq<Camera>)
  {
    && 1 <= |cameras| <= MaxCameras
    && (forall i :: 0 <= i < |cameras| ==> cameras[i].index == i)
    && (forall i :: 1 <= i < |cameras| ==> cameras[i].valid)
  }

  /**
   * Opens cameras 0, 1, 2 in turn, `probe[i]` telling whether camera `i`
   * delivers a frame. Camera 0 is kept whatever it answers; each later camera
   * is kept when valid, and the first invalid one ends the loop.
   */
  method ProbeCameras(probe: seq<bool>) returns (cameras: seq<Camera>)
    requires |probe| == MaxCameras
    ensures WellFormedCameras(cameras)
    ensures forall i :: 0 <= i < |cameras| ==> cameras[i] == Camera(i, probe[i])
    ensures |cameras| < MaxCameras ==> !probe[|cameras|]
  {
    cameras := [];
    for i := 0 to MaxCameras
      invariant |cameras| == i
      invariant forall j :: 0 <= j < i ==> cameras[j] == Camera(j, probe[j])
      invariant forall j :: 1 <= j < i ==> probe[j]
    {
      var camera := Camera(i, probe[i]);
      if camera.valid || |cameras| == 0 {
        cameras := cameras + [camera];
      } else {
        break;
      }
    }
  }

  // ---------------------------------------------------------------------
  // Camera cycling
  // ---------------------------------------------------------------------

  /** The camera selected after one `c` key: the next one, wrapping, when there are several. */
  function NextCamera(selected: nat, count: nat): (r: nat)
    ensures count <= 1 ==> r == selected
    ensures selected < count ==> r < count
  {
    if count > 1 then (selected + 1) % count else selected
  }

  /** The camera selected after `k` camera switches. */
  function Cycle(selected: nat, count: nat, k: nat): nat
  {
    if k == 0 then selected else NextCamera(Cycle(selected, count, k - 1), count)
  }

  lemma ModUnique(x: int, n: int, q: int, r: int)
    requires n > 0 && 0 <= r < n && x == q * n + r
    ensures x % n == r && x / n == q
  {
    var q', r' := x / n, x % n;
    assert (q - q') * n == r' - r;
    if q > q' {
      assert (q - q') * n >= n by { MulAtLeast(q - q', n); }
    } else if q < q' {
      assert (q' - q) * n >= n by { MulAtLeast(q' - q, n); }
    }
  }

  lemma MulAtLeast(a: int, n: int)
    requires a >= 1 && n > 0
    ensures a * n >= n
  {
  }

  /** Taking the successor commutes with reduction modulo `n`. */
  lemma ModSucc(a: nat, n: nat)
    requires n > 0
    ensures (a % n + 1) % n == (a + 1) % n
  {
    var q, r := a / n, a % n;
    if r + 1 < n {
      ModUnique(a + 1, n, q, r + 1);
      ModUnique(r + 1, n, 0, r + 1);
    } else {
      ModUnique(a + 1, n, q + 1, 0);
      ModUnique(r + 1, n, 1, 0);
    }
  }

  /** After `k` switches among `count > 1` cameras the index has advanced by `k`, modulo `count`. */
  lemma {:induction false} CycleIsOffset(selected: nat, count: nat, k: nat)
    requires 1 < count && selected < count
    ensures Cycle(selected, count, k) == (selected + k) % count
  {
    if k == 0 {
      ModUnique(selected, count, 0, selected);
    } else {
      CycleIsOffset(selected, count, k - 1);
      ModSucc(selected + k - 1, count);
    }
  }

  /** Pressing `c` once per camera brings the selection back to where it started. */
  lemma CycleReturns(selected: nat, count: nat)
    requires selected < count
    ensures Cycle(selected, count, count) == selected
  {
    if count == 1 {
      assert Cycle(selected, count, 1) == NextCamera(Cycle(selected, count, 0), count);
    } else {
      CycleIsOffset(selected, count, count);
      ModUnique(selected + count, count, 1, selected);
    }
  }

  // ---------------------------------------------------------------------
  // Toggles, as functions of the controller's state
  // ---------------------------------------------------------------------

  /** The state the toggles change: selected camera, plot window shown, face search on. */
  datatype UiState = UiState(selectedCam: nat, bpmPlot: bool, findFaces: bool)

  datatype Command = ToggleSearch | ToggleDisplayPlot | ToggleCam | WriteCsv

  /** What the application does besides changing its state. */
  datatype Effect =
    | LockReported(locked: bool)   // prints the face-detection lock state
    | PlotClosed                   // destroys the data-display window
    | PlotShown                    // draws the data-display window
    | CsvSaved(file: string)       // writes the time series to `file`
    | CameraReleased(index: nat)   // releases a camera device
    | Exited                       // ends the program

  /** `c`: with several cameras, go to the next, close the plot and resume face search. */
  function ToggleCamUi(u: UiState, count: nat): (r: UiState)
    ensures count > 1 ==> r.findFaces && !r.bpmPlot
    ensures count <= 1 ==> r == u
    ensures count > 1 ==> r.selectedCam == NextCamera(u.selectedCam, count)
    ensures u.selectedCam < count ==> r.selectedCam < count
  {
    if count > 1 then UiState(NextCamera(u.selectedCam, count), false, true) else u
  }

  /** `s`: the processor's face search flips; nothing else changes. */
  function ToggleSearchUi(u: UiState): (r: UiState)
    ensures r.findFaces == !u.findFaces
    ensures r.selectedCam == u.selectedCam && r.bpmPlot == u.bpmPlot
  {
    u.(findFaces := !u.findFaces)
  }

  /**
   * `d`: hiding the plot leaves face search alone; showing it first locks the
   * face (turns search off) if it was searching.
   */
  function ToggleDisplayPlotUi(u: UiState): (r: UiState)
    ensures r.bpmPlot == !u.bpmPlot && r.selectedCam == u.selectedCam
    ensures u.bpmPlot ==> r.findFaces == u.findFaces
    ensures !u.bpmPlot ==> !r.findFaces
  {
    if u.bpmPlot then u.(bpmPlot := false)
    else (if u.findFaces then ToggleSearchUi(u) else u).(bpmPlot := true)
  }

  function RunUi(u: UiState, count: nat, cmd: Command): UiState
  {
    match cmd
    case ToggleSearch => ToggleSearchUi(u)
    case ToggleDisplayPlot => ToggleDisplayPlotUi(u)
    case ToggleCam => ToggleCamUi(u, count)
    case WriteCsv => u
  }

  /** The state after a series of commands. */
  function RunAll(u: UiState, count: nat, cmds: seq<Command>): UiState
    decreases |cmds|
  {
    if cmds == [] then u else RunAll(RunUi(u, count, cmds[0]), count, cmds[1..])
  }

  predicate CameraInRange(u: UiState, count: nat)
  {
    u.selectedCam < count
  }

  /** No series of commands moves the selected camera out of the camera list. */
  lemma {:induction false} RunAllKeepsCameraInRange(u: UiState, count: nat, cmds: seq<Command>)
    requires CameraInRange(u, count)
    ensures CameraInRange(RunAll(u, count, cmds), count)
    decreases |cmds|
  {
    if cmds != [] {
      RunAllKeepsCameraInRange(RunUi(u, count, cmds[0]), count, cmds[1..]);
    }
  }

  /** `k` presses of `c`: the selection moves as `k` camera switches. */
  lemma {:induction false} CamPresses(u: UiState, count: nat, k: nat)
    ensures RunAll(u, count, seq(k, _ => ToggleCam)).selectedCam == Cycle(u.selectedCam, count, k)
    decreases k
  {
    if k > 0 {
      var cmds := seq(k, _ => ToggleCam);
      assert cmds[0] == ToggleCam && cmds[1..] == seq(k - 1, _ => ToggleCam);
      var v := ToggleCamUi(u, count);
      CamPresses(v, count, k - 1);
      CycleFront(u.selectedCam, count, k);
    }
  }

  /** The first of `k` camera switches can be taken first. */
  lemma {:induction false} CycleFront(selected: nat, count: nat, k: nat)
    requires k > 0
    ensures Cycle(selected, count, k) == Cycle(NextCamera(selected, count), count, k - 1)
  {
    if k > 1 {
      CycleFront(selected, count, k - 1);
    }
  }

  /** As many presses of `c` as there are cameras bring the selection back. */
  lemma CamPressesReturn(u: UiState, count: nat)
    requires u.selectedCam < count
    ensures RunAll(u, count, seq(count, _ => ToggleCam)).selectedCam == u.selectedCam
  {
    CamPresses(u, count, count);
    CycleReturns(u.selectedCam, count);
  }

  /** Showing then hiding the plot leaves the face locked: hiding does not resume the search. */
  lemma PlotOnOffKeepsLock(u: UiState, count: nat)
    requires !u.bpmPlot
    ensures RunAll(u, count, [ToggleDisplayPlot, ToggleDisplayPlot]) == u.(findFaces := false)
  {
  }

  function ToggleSearchEffects(u: UiState): seq<Effect>
  {
    [LockReported(!ToggleSearchUi(u).findFaces)]
  }

  function ToggleDisplayPlotEffects(u: UiState): seq<Effect>
  {
    if u.bpmPlot then [PlotClosed]
    else (if u.findFaces then ToggleSearchEffects(u) else []) + [PlotShown]
  }

  function ToggleCamEffects(count: nat): seq<Effect>
  {
    if count > 1 then [PlotClosed] else []
  }

  /** `name` with every `:` and `.` replaced by `_`. */
  function Sanitise(name: string): (r: string)
    ensures |r| == |name|
    ensures forall i :: 0 <= i < |name| ==> r[i] == (if name[i] == ':' || name[i] == '.' then '_' else name[i])
    ensures ':' !in r && '.' !in r
  {
    Replace(Replace(name, ':', '_'), '.', '_')
  }

  /**
   * The file `f` is written under: the prefix, the clock reading with no `:`
   * or `.` left, then `.csv`, so its only `.` is that of the extension.
   */
  function CsvFileName(now: string): (f: string)
    ensures |f| == |CsvPrefix| + |now| + 4
    ensures f[..|CsvPrefix|] == CsvPrefix && f[|f| - 4..] == ".csv"
    ensures forall i :: 0 <= i < |f| - 4 ==> f[i] != ':' && f[i] != '.'
    ensures forall i :: 0 <= i < |now| ==>
      f[|CsvPrefix| + i] == (if now[i] == ':' || now[i] == '.' then '_' else now[i])
  {
    var base := Sanitise(CsvPrefix + now);
    assert base[..|CsvPrefix|] == CsvPrefix;
    assert forall i :: 0 <= i < |now| ==> (CsvPrefix + now)[|CsvPrefix| + i] == now[i];
    base + ".csv"
  }

  function WriteCsvEffects(now: string): seq<Effect>
  {
    [CsvSaved(CsvFileName(now))]
  }

  function CommandEffects(u: UiState, count: nat, cmd: Command, now: string): seq<Effect>
  {
    match cmd
    case ToggleSearch => ToggleSearchEffects(u)
    case ToggleDisplayPlot => ToggleDisplayPlotEffects(u)
    case ToggleCam => ToggleCamEffects(count)
    case WriteCsv => WriteCsvEffects(now)
  }

  // ---------------------------------------------------------------------
  // Keys
  // ---------------------------------------------------------------------

  /** The key bindings, in the order the handler visits them. */
  const KeyControls: seq<(char, Command)> :=
    [('s', ToggleSearch), ('d', ToggleDisplayPlot), ('c', ToggleCam), ('f', WriteCsv)]

  predicate DistinctKeys(table: seq<(char, Command)>)
  {
    forall j, k :: 0 <= j < k < |table| ==> table[j].0 != table[k].0
  }

  /** The command bound to `c`, the first binding that names it. */
  function Lookup(table: seq<(char, Command)>, c: char): (r: Option<Command>)
    ensures r.None? <==> forall j :: 0 <= j < |table| ==> table[j].0 != c
    ensures r.Some? ==> exists j :: 0 <= j < |table| && table[j] == (c, r.value)
  {
    if table == [] then None
    else if table[0].0 == c then Some(table[0].1)
    else
      var r := Lookup(table[1..], c);
      assert forall j :: 1 <= j < |table| ==> table[j] == table[1..][j - 1];
      r
  }

  /** Under distinct keys, a key found at `j` yields the command stored at `j`. */
  lemma LookupAt(table: seq<(char, Command)>, c: char, j: nat)
    requires DistinctKeys(table) && j < |table| && table[j].0 == c
    ensures Lookup(table, c) == Some(table[j].1)
  {
  }

  lemma LookupExtend(table: seq<(char, Command)>, c: char, i: nat)
    requires DistinctKeys(table) && i < |table|
    ensures Lookup(table[..i + 1], c) == if table[i].0 == c then Some(table[i].1) else Lookup(table[..i], c)
  {
    var t, t' := table[..i], table[..i + 1];
    assert DistinctKeys(t) && DistinctKeys(t');
    if table[i].0 == c {
      LookupAt(t', c, i);
    } else if j :| 0 <= j < i && table[j].0 == c {
      LookupAt(t, c, j);
      LookupAt(t', c, j);
    }
  }

  /** `waitKey(10) & 255`: Python's `&` keeps the low byte, so no key (-1) reads as 255. */
  function MaskKey(key: int): (p: int)
    ensures 0 <= p < 256
    ensures (key - p) % 256 == 0
    ensures 0 <= key < 256 ==> p == key
  {
    key % 256
  }

  function CommandFor(pressed: int): Option<Command>
    requires 0 <= pressed < 256
  {
    Lookup(KeyControls, pressed as char)
  }

  /** `s`, `d`, `c` and `f` select their commands; no other key selects one. */
  lemma KeyBindings(pressed: int)
    requires 0 <= pressed < 256
    ensures pressed == 's' as int ==> CommandFor(pressed) == Some(ToggleSearch)
    ensures pressed == 'd' as int ==> CommandFor(pressed) == Some(ToggleDisplayPlot)
    ensures pressed == 'c' as int ==> CommandFor(pressed) == Some(ToggleCam)
    ensures pressed == 'f' as int ==> CommandFor(pressed) == Some(WriteCsv)
    ensures pressed !in {'s' as int, 'd' as int, 'c' as int, 'f' as int} ==> CommandFor(pressed) == None
  {
    assert DistinctKeys(KeyControls);
    var c := pressed as char;
    if j :| 0 <= j < |KeyControls| && KeyControls[j].0 == c {
      LookupAt(KeyControls, c, j);
    }
  }

  function Releases(cameras: seq<Camera>): seq<Effect>
  {
    seq(|cameras|, i requires 0 <= i < |cameras| => CameraReleased(cameras[i].index))
  }

  /** The state after a key press: escape and unbound keys change nothing. */
  function HandleKeyUi(u: UiState, count: nat, pressed: int): UiState
    requires 0 <= pressed < 256
  {
    if pressed == EscKey then u
    else match CommandFor(pressed)
      case None => u
      case Some(cmd) => RunUi(u, count, cmd)
  }

  function HandleKeyEffects(u: UiState, cameras: seq<Camera>, pressed: int, now: string): seq<Effect>
    requires 0 <= pressed < 256
  {
    if pressed == EscKey then Releases(cameras) + [Exited]
    else match CommandFor(pressed)
      case None => []
      case Some(cmd) => CommandEffects(u, |cameras|, cmd, now)
  }

  /** Any key other than escape and the four bound ones changes nothing and does nothing. */
  lemma OtherKeysIgnored(u: UiState, cameras: seq<Camera>, key: int, now: string)
    requires MaskKey(key) !in {EscKey, 's' as int, 'd' as int, 'c' as int, 'f' as int}
    ensures HandleKeyUi(u, |cameras|, MaskKey(key)) == u
    ensures HandleKeyEffects(u, cameras, MaskKey(key), now) == []
  {
    KeyBindings(MaskKey(key));
  }

  // ---------------------------------------------------------------------
  // The objects
  // ---------------------------------------------------------------------

  /** The pulse processor, reduced to its face-search flag. */
  class Processor {
    var findFaces: bool

    constructor (findFaces: bool)
      ensures this.findFaces == findFaces
    {
      this.findFaces := findFaces;
    }

    /** Flips face search and returns the new setting. */
    method FindFacesToggle() returns (state: bool)
      modifies this
      ensures findFaces == !old(findFaces)
      ensures state == findFaces
    {
      findFaces := !findFaces;
      state := findFaces;
    }
  }

  /** Toggling face search twice restores it, each call returning the flag it leaves. */
  method ToggleTwice(p: Processor) returns (first: bool, second: bool)
    modifies p
    ensures first == !old(p.findFaces) && second == old(p.findFaces)
    ensures p.findFaces == old(p.findFaces)
  {
    first := p.FindFacesToggle();
    second := p.FindFacesToggle();
  }

  class App {
    const udp: Option<Endpoint>
    const cameras: seq<Camera>
    const processor: Processor
    var selectedCam: nat
    var bpmPlot: bool
    var pressed: int
    ghost var log: seq<Effect>

    ghost predicate Valid()
      reads this
    {
      WellFormedCameras(cameras) && selectedCam < |cameras|
    }

    function State(): UiState
      reads this, processor
    {
      UiState(selectedCam, bpmPlot, processor.findFaces)
    }

    /** Everything the application's constructor does once the UDP argument is read. */
    constructor (udp: Option<Endpoint>, probe: seq<bool>, findFaces: bool)
      requires |probe| == MaxCameras
      ensures Valid() && fresh(processor)
      ensures this.udp == udp
      ensures forall i :: 0 <= i < |cameras| ==> cameras[i] == Camera(i, probe[i])
      ensures |cameras| < MaxCameras ==> !probe[|cameras|]
      ensures State() == UiState(0, false, findFaces) && pressed == 0 && log == []
    {
      this.udp := udp;
      var probed := ProbeCameras(probe);
      cameras := probed;
      processor := new Processor(findFaces);
      selectedCam := 0;
      bpmPlot := false;
      pressed := 0;
      log := [];
    }

    method ToggleCam()
      requires Valid()
      modifies this`selectedCam, this`bpmPlot, this`log, processor
      ensures Valid()
      ensures State() == ToggleCamUi(old(State()), |cameras|)
      ensures log == old(log) + ToggleCamEffects(|cameras|)
    {
      if |cameras| > 1 {
        processor.findFaces := true;
        bpmPlot := false;
        log := log + [PlotClosed];
        selectedCam := selectedCam + 1;
        selectedCam := selectedCam % |cameras|;
      }
    }

    method WriteCsv(now: string)
      modifies this`log
      ensures log == old(log) + WriteCsvEffects(now)
    {
      var fn := CsvPrefix + now;
      fn := Replace(Replace(fn, ':', '_'), '.', '_');
      log := log + [CsvSaved(fn + ".csv")];
    }

    method ToggleSearch()
      modifies this`log, processor
      ensures State() == ToggleSearchUi(old(State()))
      ensures log == old(log) + ToggleSearchEffects(old(State()))
    {
      var state := processor.FindFacesToggle();
      log := log + [LockReported(!state)];
    }

    method ToggleDisplayPlot()
      modifies this`bpmPlot, this`log, processor
      ensures State() == ToggleDisplayPlotUi(old(State()))
      ensures log == old(log) + ToggleDisplayPlotEffects(old(State()))
    {
      if bpmPlot {
        bpmPlot := false;
        log := log + [PlotClosed];
      } else {
        if processor.findFaces {
          ToggleSearch();
        }
        bpmPlot := true;
        log := log + [PlotShown];
      }
    }

    /** Calls the method bound to a command. */
    method Run(cmd: Command, now: string)
      requires Valid()
      modifies this`selectedCam, this`bpmPlot, this`log, processor
      ensures Valid()
      ensures State() == RunUi(old(State()), |cameras|, cmd)
      ensures log == old(log) + CommandEffects(old(State()), |cameras|, cmd, now)
    {
      match cmd
      case ToggleSearch => ToggleSearch();
      case ToggleDisplayPlot => ToggleDisplayPlot();
      case ToggleCam => ToggleCam();
      case WriteCsv => WriteCsv(now);
    }

    /**
     * Reads the key pressed during the 10 ms wait as its low byte. Escape
     * releases every camera and exits; otherwise the bound command, if any,
     * runs once. `exit` tells the caller the program has ended.
     */
    method KeyHandler(key: int, now: string) returns (exit: bool)
      requires Valid()
      modifies this, processor
      ensures Valid()
      ensures pressed == MaskKey(key)
      ensures exit <==> pressed == EscKey
      ensures State() == HandleKeyUi(old(State()), |cameras|, pressed)
      ensures log == old(log) + HandleKeyEffects(old(State()), cameras, pressed, now)
    {
      pressed := MaskKey(key);
      if pressed == EscKey {
        for i := 0 to |cameras|
          invariant log == old(log) + Releases(cameras[..i])
        {
          log := log + [CameraReleased(cameras[i].index)];
        }
        assert cameras[..|cameras|] == cameras;
        log := log + [Exited];
        return true;
      }
      exit := false;
      var c := pressed as char;
      ghost var u0, log0 := State(), log;
      assert DistinctKeys(KeyControls);
      for i := 0 to |KeyControls|
        invariant Valid() && pressed == MaskKey(key)
        invariant Lookup(KeyControls[..i], c).None? ==> State() == u0 && log == log0
        invariant Lookup(KeyControls[..i], c).Some? ==>
          && State() == RunUi(u0, |cameras|, Lookup(KeyControls[..i], c).value)
          && log == log0 + CommandEffects(u0, |cameras|, Lookup(KeyControls[..i], c).value, now)
      {
        LookupExtend(KeyControls, c, i);
        if KeyControls[i].0 == c {
          Run(KeyControls[i].1, now);
        }
      }
      assert KeyControls[..|KeyControls|] == KeyControls;
    }
  }

  /**
   * The application's constructor: the UDP argument is read first, and an
   * argument Python cannot unpack stops construction before any camera is
   * opened.
   */
  method CreateApp(arg: Option<string>, probe: seq<bool>, findFaces: bool) returns (r: Result<App, UdpError>)
    requires |probe| == MaxCameras
    ensures r.Failure? <==> ParseUdp(arg).Failure?
    ensures r.Failure? ==> r.error == ParseUdp(arg).error
    ensures r.Success? ==> fresh(r.value) && r.value.Valid() && r.value.udp == ParseUdp(arg).value
    ensures r.Success? ==> forall i :: 0 <= i < |r.value.cameras| ==> r.value.cameras[i] == Camera(i, probe[i])
    ensures r.Success? ==> |r.value.cameras| < MaxCameras ==> !probe[|r.value.cameras|]
    ensures r.Success? ==> r.value.State() == UiState(0, false, findFaces) && r.value.pressed == 0 && r.value.log == []
  {
    match ParseUdp(arg)
    case Failure(e) => return Failure(e);
    case Success(udp) =>
      var app := new App(udp, probe, findFaces);
      return Success(app);
  }
}
