/** Reading a scene file: the member lookups and typed accessors applied to
    the parsed JSON document, and load_scene, which fills a Scene from it. */
module SceneFile {
  import opened Json
  import opened Numeric

  /** A rectangular barrier in normalised coordinates. */
  datatype SceneBox = SceneBox(x0: real, y0: real, x1: real, y1: real, height: real)

  /** A radial well; profile is the integer code of its shape. */
  datatype SceneWell = SceneWell(cx: real, cy: real, strength: real, radius: real, profile: int)

  /** A Gaussian wave packet. */
  datatype ScenePacket = ScenePacket(cx: real, cy: real, sigma: real, amplitude: real, kx: real, ky: real)

  // ----- looking members up -----

  /** Member i is the first one named key. */
  predicate FirstNamed(members: seq<Member>, key: string, i: int) {
    0 <= i < |members| && members[i].key == key
    && forall j :: 0 <= j < i ==> members[j].key != key
  }

  /** The loop of get_member over an object's members, in source order. */
  function Lookup(members: seq<Member>, key: string): Option<JsonValue> {
    if |members| == 0 then None
    else if members[0].key == key then Some(members[0].value)
    else Lookup(members[1..], key)
  }

  /** get_member(obj, key): the value of the first member named key, none
      when there is no such member or obj is not an object. */
  function GetMember(obj: JsonValue, key: string): (r: Option<JsonValue>)
    ensures !obj.Object? ==> r.None?
  {
    if obj.Object? then Lookup(obj.members, key) else None
  }

  /** Lookup finds a member exactly when one has the key, and then it finds
      the first one. */
  lemma {:induction false} LookupFirst(members: seq<Member>, key: string)
    ensures Lookup(members, key).None? <==> forall i :: 0 <= i < |members| ==> members[i].key != key
    ensures Lookup(members, key).Some? ==>
      exists i :: FirstNamed(members, key, i) && members[i].value == Lookup(members, key).value
  {
    if |members| == 0 {
    } else if members[0].key == key {
      assert FirstNamed(members, key, 0);
    } else {
      LookupFirst(members[1..], key);
      assert forall i :: 1 <= i < |members| ==> members[i] == members[1..][i - 1];
      var r := Lookup(members[1..], key);
      if r.Some? {
        var i :| FirstNamed(members[1..], key, i) && members[1..][i].value == r.value;
        assert FirstNamed(members, key, i + 1);
      }
    }
  }

  /** get_member finds nothing in a value that is not an object or has no
      member named key, and otherwise the value of the first member so
      named. */
  lemma MemberFound(obj: JsonValue, key: string)
    ensures GetMember(obj, key).None? <==>
      !obj.Object? || forall i :: 0 <= i < |obj.members| ==> obj.members[i].key != key
    ensures GetMember(obj, key).Some? ==> exists i ::
      FirstNamed(obj.members, key, i) && obj.members[i].value == GetMember(obj, key).value
  {
    if obj.Object? {
      LookupFirst(obj.members, key);
    }
  }

  /** With repeated keys the first member wins. */
  lemma FirstMemberWins(members: seq<Member>, key: string, i: int)
    requires FirstNamed(members, key, i)
    ensures GetMember(Object(members), key) == Some(members[i].value)
  {
    MemberFound(Object(members), key);
    var r := GetMember(Object(members), key);
    var j :| FirstNamed(members, key, j) && members[j].value == r.value;
  }

  // ----- typed access with defaults -----

  /** as_number(v, def): the number v holds, def when v is missing or not
      a number. */
  function AsNumber(v: Option<JsonValue>, def: real): real {
    if v.Some? && v.value.Number? then v.value.n else def
  }

  /** The conversion of a long long to a 32-bit int: two's complement
      wrap-around. */
  function Int32(n: int): (r: int)
    ensures -0x8000_0000 <= r < 0x8000_0000
    ensures (n - r) % 0x1_0000_0000 == 0
  {
    (n + 0x8000_0000) % 0x1_0000_0000 - 0x8000_0000
  }

  /** A value that fits in an int is converted unchanged. */
  lemma Int32Fits(n: int)
    requires -0x8000_0000 <= n < 0x8000_0000
    ensures Int32(n) == n
  {
    assert (n + 0x8000_0000) % 0x1_0000_0000 == n + 0x8000_0000;
  }

  /** as_int(v, def): the number v holds rounded half away from zero and
      cast to int, def when v is missing or not a number. */
  function AsInt(v: Option<JsonValue>, def: int): int {
    if v.Some? && v.value.Number? then Int32(RoundHalfAway(v.value.n)) else def
  }

  /** as_bool(v, def): the boolean v holds, def when v is missing or not a
      boolean. */
  function AsBool(v: Option<JsonValue>, def: bool): bool {
    if v.Some? && v.value.Bool? then v.value.b else def
  }

  /** A missing member leaves the default, and so does a value that is not
      an object. */
  lemma DefaultsKept(obj: JsonValue, key: string, x: real, n: int, b: bool)
    requires obj.Object? ==> forall i :: 0 <= i < |obj.members| ==> obj.members[i].key != key
    ensures AsNumber(GetMember(obj, key), x) == x
    ensures AsInt(GetMember(obj, key), n) == n
    ensures AsBool(GetMember(obj, key), b) == b
  {
    MemberFound(obj, key);
  }

  /** A present number is read as it is, and rounded for as_int: to the
      nearest integer, halfway cases away from zero. */
  lemma NumberRead(obj: JsonValue, key: string, x: real, def: real, n: int)
    requires obj.Object? && GetMember(obj, key) == Some(Number(x))
    requires -0x8000_0000 as real <= x < 0x8000_0000 as real - 0.5
    ensures AsNumber(GetMember(obj, key), def) == x
    ensures var k := AsInt(GetMember(obj, key), n); x - 0.5 <= k as real <= x + 0.5
    ensures var k := AsInt(GetMember(obj, key), n); x - (x.Floor as real) == 0.5 ==> k == if x >= 0.0 then x.Floor + 1 else x.Floor
  {
    RoundNearest(x);
    var k := RoundHalfAway(x);
    Int32Fits(k);
    if x - (x.Floor as real) == 0.5 {
      if x < 0.0 {
        RoundOdd(x);
        assert -x == (-x.Floor - 1) as real + 0.5;
        if -x.Floor - 1 >= 0 {
          RoundHalfwayAway(-x.Floor - 1);
          assert -(-x) == x;
        }
      } else {
        RoundHalfwayAway(x.Floor);
      }
    }
  }

  // ----- the lists of boxes, wells and packets -----

  /** The elements of an array-valued member, none otherwise. */
  function ItemsOf(v: Option<JsonValue>): seq<JsonValue> {
    if v.Some? && v.value.Array? then v.value.items else []
  }

  /** The loop of load_scene over an array: one entry per object element,
      in order, made by f; other elements are skipped. */
  function Collect<T>(items: seq<JsonValue>, f: JsonValue -> T): seq<T> {
    if |items| == 0 then []
    else
      var last := items[|items| - 1];
      Collect(items[..|items| - 1], f) + (if last.Object? then [f(last)] else [])
  }

  /** Collecting a concatenation collects each part in turn. */
  lemma {:induction false} CollectAppend<T>(a: seq<JsonValue>, b: seq<JsonValue>, f: JsonValue -> T)
    ensures Collect(a + b, f) == Collect(a, f) + Collect(b, f)
    decreases |b|
  {
    if |b| == 0 {
      assert a + b == a;
    } else {
      var b' := b[..|b| - 1];
      assert (a + b)[..|a + b| - 1] == a + b';
      CollectAppend(a, b', f);
    }
  }

  /** Only the object elements contribute, one entry each, with nothing
      invented: every entry is f of some object element, and an array
      without objects yields nothing. */
  lemma {:induction false} CollectOnlyObjects<T>(items: seq<JsonValue>, f: JsonValue -> T)
    ensures |Collect(items, f)| <= |items|
    ensures forall k :: 0 <= k < |Collect(items, f)| ==> exists i :: 0 <= i < |items| && items[i].Object? && Collect(items, f)[k] == f(items[i])
    ensures (forall i :: 0 <= i < |items| ==> !items[i].Object?) ==> Collect(items, f) == []
    decreases |items|
  {
    if |items| > 0 {
      var front := items[..|items| - 1];
      CollectOnlyObjects(front, f);
      assert forall i :: 0 <= i < |front| ==> front[i] == items[i];
    }
  }

  /** When every element is an object, each one gives one entry in place. */
  lemma {:induction false} CollectObjects<T>(items: seq<JsonValue>, f: JsonValue -> T)
    requires forall i :: 0 <= i < |items| ==> items[i].Object?
    ensures |Collect(items, f)| == |items|
    ensures forall i :: 0 <= i < |items| ==> Collect(items, f)[i] == f(items[i])
    decreases |items|
  {
    if |items| > 0 {
      var front := items[..|items| - 1];
      assert forall i :: 0 <= i < |front| ==> front[i] == items[i];
      CollectObjects(front, f);
    }
  }

  /** One box from an object element; missing fields are 0. */
  function BoxOf(item: JsonValue): SceneBox {
    SceneBox(
      AsNumber(GetMember(item, "x0"), 0.0), AsNumber(GetMember(item, "y0"), 0.0),
      AsNumber(GetMember(item, "x1"), 0.0), AsNumber(GetMember(item, "y1"), 0.0),
      AsNumber(GetMember(item, "height"), 0.0))
  }

  /** One well from an object element; missing fields are 0. */
  function WellOf(item: JsonValue): SceneWell {
    SceneWell(
      AsNumber(GetMember(item, "cx"), 0.0), AsNumber(GetMember(item, "cy"), 0.0),
      AsNumber(GetMember(item, "strength"), 0.0), AsNumber(GetMember(item, "radius"), 0.0),
      AsInt(GetMember(item, "profile"), 0))
  }

  /** One packet from an object element; missing fields are 0. */
  function PacketOf(item: JsonValue): ScenePacket {
    ScenePacket(
      AsNumber(GetMember(item, "cx"), 0.0), AsNumber(GetMember(item, "cy"), 0.0),
      AsNumber(GetMember(item, "sigma"), 0.0), AsNumber(GetMember(item, "amplitude"), 0.0),
      AsNumber(GetMember(item, "kx"), 0.0), AsNumber(GetMember(item, "ky"), 0.0))
  }

  /** An empty object element gives an all-zero entry. */
  lemma EmptyElementIsZero()
    ensures BoxOf(Object([])) == SceneBox(0.0, 0.0, 0.0, 0.0, 0.0)
    ensures WellOf(Object([])) == SceneWell(0.0, 0.0, 0.0, 0.0, 0)
    ensures PacketOf(Object([])) == ScenePacket(0.0, 0.0, 0.0, 0.0, 0.0, 0.0)
  {
    assert Lookup([], "profile") == None;
  }

  /** The members of the root object that load_scene reads. */
  datatype Key =
    | Nx
    | Ny
    | Dt
    | CapStrength
    | CapRatio
    | Steps
    | RelMassDriftTol
    | RelCapMassGrowthTol
    | RelInteriorMassDriftTol
    | InteriorMassDriftVsTotalTol
    | MinInitialInteriorMassFraction
    | MinInteriorAreaFraction
    | StabilityWarmupSteps
    | InteriorDriftHardFail
    | AutoPauseOnInstability
    | Boxes
    | Wells
    | Packets

  /** The member name of each key, as written in a scene file. */
  function KeyName(k: Key): string {
    match k
    case Nx => "Nx"
    case Ny => "Ny"
    case Dt => "dt"
    case CapStrength => "cap_strength"
    case CapRatio => "cap_ratio"
    case Steps => "steps"
    case RelMassDriftTol => "rel_mass_drift_tol"
    case RelCapMassGrowthTol => "rel_cap_mass_growth_tol"
    case RelInteriorMassDriftTol => "rel_interior_mass_drift_tol"
    case InteriorMassDriftVsTotalTol => "interior_mass_drift_vs_total_tol"
    case MinInitialInteriorMassFraction => "min_initial_interior_mass_fraction"
    case MinInteriorAreaFraction => "min_interior_area_fraction"
    case StabilityWarmupSteps => "stability_warmup_steps"
    case InteriorDriftHardFail => "interior_drift_hard_fail"
    case AutoPauseOnInstability => "auto_pause_on_instability"
    case Boxes => "boxes"
    case Wells => "wells"
    case Packets => "packets"
  }

  // ----- the scene -----

  /** The scene settings load_scene reads and writes.  The defaults are
      those of a freshly made Scene. */
  class Scene {
    var nx: int
    var ny: int
    var dt: real
    var capStrength: real
    var capRatio: real
    var relMassDriftTol: real
    var relCapMassGrowthTol: real
    var relInteriorMassDriftTol: real
    var interiorMassDriftVsTotalTol: real
    var minInitialInteriorMassFraction: real
    var minInteriorAreaFraction: real
    var stabilityWarmupSteps: int
    var interiorDriftHardFail: bool
    var autoPauseOnInstability: bool
    var boxes: seq<SceneBox>
    var wells: seq<SceneWell>
    var packets: seq<ScenePacket>
    var steps: int

    constructor ()
      ensures nx == 128 && ny == 128 && dt == 0.001
      ensures capStrength == 1.0 && capRatio == 0.1
      ensures relMassDriftTol == 0.15 && relCapMassGrowthTol == 0.01
      ensures relInteriorMassDriftTol == 1.0 && interiorMassDriftVsTotalTol == 0.05
      ensures minInitialInteriorMassFraction == 0.05 && minInteriorAreaFraction == 0.01
      ensures stabilityWarmupSteps == 8 && !interiorDriftHardFail && autoPauseOnInstability
      ensures boxes == [] && wells == [] && packets == [] && steps == 600
    {
      nx, ny, dt := 128, 128, 0.001;
      capStrength, capRatio := 1.0, 0.1;
      relMassDriftTol, relCapMassGrowthTol := 0.15, 0.01;
      relInteriorMassDriftTol, interiorMassDriftVsTotalTol := 1.0, 0.05;
      minInitialInteriorMassFraction, minInteriorAreaFraction := 0.05, 0.01;
      stabilityWarmupSteps, interiorDriftHardFail, autoPauseOnInstability := 8, false, true;
      boxes, wells, packets := [], [], [];
      steps := 600;
    }

    /** The grid and time-step settings after reading root, each from its
        member with the previous value as the default. */
    twostate predicate GridRead(root: JsonValue)
      reads this`nx, this`ny, this`dt, this`capStrength, this`capRatio, this`steps
    {
      && nx == AsInt(GetMember(root, KeyName(Nx)), old(nx))
      && ny == AsInt(GetMember(root, KeyName(Ny)), old(ny))
      && dt == AsNumber(GetMember(root, KeyName(Dt)), old(dt))
      && capStrength == AsNumber(GetMember(root, KeyName(CapStrength)), old(capStrength))
      && capRatio == AsNumber(GetMember(root, KeyName(CapRatio)), old(capRatio))
      && steps == AsInt(GetMember(root, KeyName(Steps)), old(steps))
    }

    /** The mass-drift tolerances after reading root, defaults as above. */
    twostate predicate TolerancesRead(root: JsonValue)
      reads this`relMassDriftTol, this`relCapMassGrowthTol, this`relInteriorMassDriftTol,
        this`interiorMassDriftVsTotalTol, this`minInitialInteriorMassFraction, this`minInteriorAreaFraction
    {
      && relMassDriftTol == AsNumber(GetMember(root, KeyName(RelMassDriftTol)), old(relMassDriftTol))
      && relCapMassGrowthTol == AsNumber(GetMember(root, KeyName(RelCapMassGrowthTol)), old(relCapMassGrowthTol))
      && relInteriorMassDriftTol == AsNumber(GetMember(root, KeyName(RelInteriorMassDriftTol)), old(relInteriorMassDriftTol))
      && interiorMassDriftVsTotalTol == AsNumber(GetMember(root, KeyName(InteriorMassDriftVsTotalTol)), old(interiorMassDriftVsTotalTol))
      && minInitialInteriorMassFraction == AsNumber(GetMember(root, KeyName(MinInitialInteriorMassFraction)), old(minInitialInteriorMassFraction))
      && minInteriorAreaFraction == AsNumber(GetMember(root, KeyName(MinInteriorAreaFraction)), old(minInteriorAreaFraction))
    }

    /** The stability-monitor switches after reading root, defaults as above. */
    twostate predicate MonitorRead(root: JsonValue)
      reads this`stabilityWarmupSteps, this`interiorDriftHardFail, this`autoPauseOnInstability
    {
      && stabilityWarmupSteps == AsInt(GetMember(root, KeyName(StabilityWarmupSteps)), old(stabilityWarmupSteps))
      && interiorDriftHardFail == AsBool(GetMember(root, KeyName(InteriorDriftHardFail)), old(interiorDriftHardFail))
      && autoPauseOnInstability == AsBool(GetMember(root, KeyName(AutoPauseOnInstability)), old(autoPauseOnInstability))
    }

    /** The three lists after reading root: the object elements of each array
        member, in order, missing fields 0; the old lists are discarded. */
    predicate ListsRead(root: JsonValue)
      reads this`boxes, this`wells, this`packets
    {
      && boxes == Collect(ItemsOf(GetMember(root, KeyName(Boxes))), BoxOf)
      && wells == Collect(ItemsOf(GetMember(root, KeyName(Wells))), WellOf)
      && packets == Collect(ItemsOf(GetMember(root, KeyName(Packets))), PacketOf)
    }
  }

  /** The document load_scene accepts: the file was read, parses, and its
      root is an object. */
  function SceneRoot(file: Option<string>, stod: Stod): (r: Option<JsonValue>)
    ensures r.Some? <==> file.Some? && Document(file.value, stod).Ok? && Document(file.value, stod).value.Object?
    ensures r.Some? ==> r.value == Document(file.value, stod).value
  {
    if file.None? then None
    else
      match Document(file.value, stod)
      case Ok(v) => if v.Object? then Some(v) else None
      case Err(_) => None
  }

  /** load_scene: file is what read_file produced, None when it failed.
      On failure the scene is left as it was; on success every scalar
      setting is read from the document's root object with its old value
      as the default, and the lists are rebuilt from it. */
  method LoadScene(file: Option<string>, stod: Stod, sc: Scene) returns (ok: bool)
    modifies sc
    ensures ok <==> SceneRoot(file, stod).Some?
    ensures !ok ==> unchanged(sc)
    ensures ok ==> var root := SceneRoot(file, stod).value;
      sc.GridRead(root) && sc.TolerancesRead(root) && sc.MonitorRead(root) && sc.ListsRead(root)
  {
    hide Document, SceneRoot, GetMember, Lookup, AsInt, AsNumber, AsBool, KeyName;
    if file.None? {
      return false;
    }
    var parsed := ParseText(file.value, stod);
    if parsed.Err? || !parsed.value.Object? {
      return false;
    }
    ReadRoot(parsed.value, sc);
    return true;
  }

  /** The part of load_scene after the root check: the scalar settings
      in source order, then the three lists cleared and refilled. */
  method ReadRoot(root: JsonValue, sc: Scene)
    modifies sc
    ensures sc.GridRead(root) && sc.TolerancesRead(root) && sc.MonitorRead(root)
    ensures sc.ListsRead(root)
  {
    hide GetMember, Lookup, AsInt, AsNumber, AsBool, Collect, ItemsOf, KeyName;
    ReadSettings(root, sc);
    ReadLists(root, sc);
  }

  /** The scalar assignments of load_scene, each with the old value as the
      default. */
  method ReadSettings(root: JsonValue, sc: Scene)
    modifies sc`nx, sc`ny, sc`dt, sc`capStrength, sc`capRatio, sc`steps
    modifies sc`relMassDriftTol, sc`relCapMassGrowthTol, sc`relInteriorMassDriftTol
    modifies sc`interiorMassDriftVsTotalTol, sc`minInitialInteriorMassFraction, sc`minInteriorAreaFraction
    modifies sc`stabilityWarmupSteps, sc`interiorDriftHardFail, sc`autoPauseOnInstability
    ensures sc.GridRead(root) && sc.TolerancesRead(root) && sc.MonitorRead(root)
  {
    hide GetMember, Lookup, AsInt, AsNumber, AsBool, KeyName;
    ReadGrid(root, sc);
    ReadTolerances(root, sc);
    ReadMonitor(root, sc);
  }

  /** The list part of load_scene: all three lists are cleared, then
      refilled in turn. */
  method ReadLists(root: JsonValue, sc: Scene)
    modifies sc`boxes, sc`wells, sc`packets
    ensures sc.ListsRead(root)
  {
    hide GetMember, Lookup, Collect, ItemsOf, KeyName;
    sc.boxes := [];
    sc.wells := [];
    sc.packets := [];
    ReadBoxes(ItemsOf(GetMember(root, KeyName(Boxes))), sc);
    ReadWells(ItemsOf(GetMember(root, KeyName(Wells))), sc);
    ReadPackets(ItemsOf(GetMember(root, KeyName(Packets))), sc);
  }

  /** The first six scalar assignments of load_scene. */
  method ReadGrid(root: JsonValue, sc: Scene)
    modifies sc`nx, sc`ny, sc`dt, sc`capStrength, sc`capRatio, sc`steps
    ensures sc.GridRead(root)
  {
    sc.nx := AsInt(GetMember(root, KeyName(Nx)), sc.nx);
    sc.ny := AsInt(GetMember(root, KeyName(Ny)), sc.ny);
    sc.dt := AsNumber(GetMember(root, KeyName(Dt)), sc.dt);
    sc.capStrength := AsNumber(GetMember(root, KeyName(CapStrength)), sc.capStrength);
    sc.capRatio := AsNumber(GetMember(root, KeyName(CapRatio)), sc.capRatio);
    sc.steps := AsInt(GetMember(root, KeyName(Steps)), sc.steps);
  }

  /** The tolerance assignments of load_scene. */
  method ReadTolerances(root: JsonValue, sc: Scene)
    modifies sc`relMassDriftTol, sc`relCapMassGrowthTol, sc`relInteriorMassDriftTol
    modifies sc`interiorMassDriftVsTotalTol, sc`minInitialInteriorMassFraction, sc`minInteriorAreaFraction
    ensures sc.TolerancesRead(root)
  {
    sc.relMassDriftTol := AsNumber(GetMember(root, KeyName(RelMassDriftTol)), sc.relMassDriftTol);
    sc.relCapMassGrowthTol := AsNumber(GetMember(root, KeyName(RelCapMassGrowthTol)), sc.relCapMassGrowthTol);
    sc.relInteriorMassDriftTol := AsNumber(GetMember(root, KeyName(RelInteriorMassDriftTol)), sc.relInteriorMassDriftTol);
    sc.interiorMassDriftVsTotalTol := AsNumber(GetMember(root, KeyName(InteriorMassDriftVsTotalTol)), sc.interiorMassDriftVsTotalTol);
    sc.minInitialInteriorMassFraction := AsNumber(GetMember(root, KeyName(MinInitialInteriorMassFraction)), sc.minInitialInteriorMassFraction);
    sc.minInteriorAreaFraction := AsNumber(GetMember(root, KeyName(MinInteriorAreaFraction)), sc.minInteriorAreaFraction);
  }

  /** The stability-monitor assignments of load_scene. */
  method ReadMonitor(root: JsonValue, sc: Scene)
    modifies sc`stabilityWarmupSteps, sc`interiorDriftHardFail, sc`autoPauseOnInstability
    ensures sc.MonitorRead(root)
  {
    sc.stabilityWarmupSteps := AsInt(GetMember(root, KeyName(StabilityWarmupSteps)), sc.stabilityWarmupSteps);
    sc.interiorDriftHardFail := AsBool(GetMember(root, KeyName(InteriorDriftHardFail)), sc.interiorDriftHardFail);
    sc.autoPauseOnInstability := AsBool(GetMember(root, KeyName(AutoPauseOnInstability)), sc.autoPauseOnInstability);
  }

  /** The boxes loop of load_scene: every object element is appended in
      order, anything else is skipped. */
  method ReadBoxes(items: seq<JsonValue>, sc: Scene)
    modifies sc`boxes
    ensures sc.boxes == old(sc.boxes) + Collect(items, BoxOf)
  {
    for k := 0 to |items|
      invariant sc.boxes == old(sc.boxes) + Collect(items[..k], BoxOf)
    {
      assert items[..k + 1][..k] == items[..k];
      if !items[k].Object? {
        continue;
      }
      sc.boxes := sc.boxes + [BoxOf(items[k])];
    }
    assert items[..|items|] == items;
  }

  /** The wells loop of load_scene, as ReadBoxes. */
  method ReadWells(items: seq<JsonValue>, sc: Scene)
    modifies sc`wells
    ensures sc.wells == old(sc.wells) + Collect(items, WellOf)
  {
    for k := 0 to |items|
      invariant sc.wells == old(sc.wells) + Collect(items[..k], WellOf)
    {
      assert items[..k + 1][..k] == items[..k];
      if !items[k].Object? {
        continue;
      }
      sc.wells := sc.wells + [WellOf(items[k])];
    }
    assert items[..|items|] == items;
  }

  /** The packets loop of load_scene, as ReadBoxes. */
  method ReadPackets(items: seq<JsonValue>, sc: Scene)
    modifies sc`packets
    ensures sc.packets == old(sc.packets) + Collect(items, PacketOf)
  {
    for k := 0 to |items|
      invariant sc.packets == old(sc.packets) + Collect(items[..k], PacketOf)
    {
      assert items[..k + 1][..k] == items[..k];
      if !items[k].Object? {
        continue;
      }
      sc.packets := sc.packets + [PacketOf(items[k])];
    }
    assert items[..|items|] == items;
  }
}
