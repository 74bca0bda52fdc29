/** Node definitions for the editor palette: pin and property templates, the
    defaults every definition inherits, the registry of the fourteen built-in
    definitions looked up by kind name, and the category and pin colours. */
module NodeDefs {
  import opened Util
  import opened Model

  /** A pin template before the graph hands out its id. */
  datatype PinDef = PinDef(name: string, direction: PinDirection, dataType: DataType)

  function InputDef(name: string, dataType: DataType): (d: PinDef)
    ensures d.direction == Input && d.name == name && d.dataType == dataType
  {
    PinDef(name, Input, dataType)
  }

  function OutputDef(name: string, dataType: DataType): (d: PinDef)
    ensures d.direction == Output && d.name == name && d.dataType == dataType
  {
    PinDef(name, Output, dataType)
  }

  function ExecIn(name: string): (d: PinDef)
    ensures d.direction == Input && d.name == name && d.dataType == DataType.Exec
  {
    InputDef(name, DataType.Exec)
  }

  function ExecOut(name: string): (d: PinDef)
    ensures d.direction == Output && d.name == name && d.dataType == DataType.Exec
  {
    OutputDef(name, DataType.Exec)
  }

  /** The template as a pin with the placeholder id `id`. */
  function ToPin(d: PinDef, id: nat): (p: Pin)
    ensures p.id == id && p.name == d.name && p.direction == d.direction && p.dataType == d.dataType
  {
    Pin(id, d.name, d.direction, d.dataType)
  }

  /** A configurable property of a node and its default. */
  datatype PropertyDef = PropertyDef(name: string, dataType: DataType, defaultValue: Value, inlineEditable: bool)

  /** A property whose type is that of its default; not editable inline. */
  function NewProperty(name: string, defaultValue: Value): (p: PropertyDef)
    ensures p.name == name && p.defaultValue == defaultValue && !p.inlineEditable
    ensures p.dataType == DataTypeOf(defaultValue) && p.dataType != DataType.Exec
  {
    PropertyDef(name, DataTypeOf(defaultValue), defaultValue, false)
  }

  /** The same property, editable inline in the node body. */
  function Inline(p: PropertyDef): (r: PropertyDef)
    ensures r.inlineEditable
    ensures r.name == p.name && r.dataType == p.dataType && r.defaultValue == p.defaultValue
  {
    p.(inlineEditable := true)
  }

  datatype NodeCategory = Event | FlowControl | Utility | Variable | Math | String | Custom

  /** What a node definition provides; the trait's provided methods are the defaults of `Definition`. */
  datatype NodeDefinition = NodeDefinition(
    kindName: string,
    displayName: string,
    category: NodeCategory,
    description: string,
    pins: seq<PinDef>,
    properties: seq<PropertyDef>,
    isEntry: bool,
    isPure: bool,
    allowedGraphs: seq<string>,
    inlinePropertyKey: Option<string>)

  /** A definition that supplies only the required methods and keeps every provided default. */
  function Definition(kindName: string, displayName: string, category: NodeCategory, pins: seq<PinDef>): (d: NodeDefinition)
    ensures d.kindName == kindName && d.displayName == displayName && d.category == category && d.pins == pins
    ensures d.description == "" && d.properties == [] && !d.isEntry && !d.isPure
    ensures d.allowedGraphs == ["EventGraph", "ConstructionScript"] && d.inlinePropertyKey.None?
  {
    NodeDefinition(kindName, displayName, category, "", pins, [], false, false,
      ["EventGraph", "ConstructionScript"], None)
  }

  /** The definition's pins with ids `0 .. n-1` in declaration order. */
  function CreatePins(d: NodeDefinition): (r: seq<Pin>)
    ensures |r| == |d.pins|
    ensures forall i :: 0 <= i < |r| ==> r[i].id == i
    ensures forall i :: 0 <= i < |r| ==> r[i].name == d.pins[i].name && r[i].direction == d.pins[i].direction
                                         && r[i].dataType == d.pins[i].dataType
  {
    seq(|d.pins|, i requires 0 <= i < |d.pins| => ToPin(d.pins[i], i))
  }

  /** Once a graph renumbers the created pins from `base`, their ids are `base .. base+n-1`
      and their placeholder ids play no part. */
  lemma CreatedPinsRenumber(d: NodeDefinition, base: nat)
    ensures forall i :: 0 <= i < |d.pins| ==>
      Renumbered(CreatePins(d), base)[i] == ToPin(d.pins[i], base + i)
  {
  }

  /** The property map of a list of properties, a later duplicate name overriding an earlier one. */
  function PropertyMap(props: seq<PropertyDef>): (m: map<string, Value>)
    ensures forall k :: k in m <==> exists i :: 0 <= i < |props| && props[i].name == k
    decreases |props|
  {
    if |props| == 0 then map[]
    else
      var init := props[..|props| - 1];
      var p := props[|props| - 1];
      assert forall i :: 0 <= i < |init| ==> init[i] == props[i];
      PropertyMap(init)[p.name := p.defaultValue]
  }

  function CreateProperties(d: NodeDefinition): (m: map<string, Value>)
    ensures forall k :: k in m <==> exists i :: 0 <= i < |d.properties| && d.properties[i].name == k
  {
    PropertyMap(d.properties)
  }

  /** The last property with a given name decides its default. */
  lemma {:induction false} LastPropertyWins(props: seq<PropertyDef>, i: nat)
    requires i < |props| && forall j :: i < j < |props| ==> props[j].name != props[i].name
    ensures props[i].name in PropertyMap(props) && PropertyMap(props)[props[i].name] == props[i].defaultValue
    decreases |props|
  {
    var init := props[..|props| - 1];
    if i < |props| - 1 {
      assert forall j :: i < j < |init| ==> init[j] == props[j];
      LastPropertyWins(init, i);
    }
  }

  /** The kind names of the fourteen registered definitions, in registry order. */
  const RegistryKinds: seq<string> := [
    "BeginPlay", "Tick", "ConstructionScript",
    "Branch",
    "Print", "RhaiScript",
    "GetVariable", "SetVariable",
    "Self", "GetActorTransform", "SetActorTransform", "SpawnActor", "GetActorByName", "GetActorName"]

  /** The kind name each built-in kind is registered under (`Self_` is registered as `"Self"`). */
  function KindName(kind: BuiltinNodeKind): (s: string)
    ensures s in RegistryKinds
  {
    match kind
    case BeginPlay => "BeginPlay"
    case Tick => "Tick"
    case ConstructionScript => "ConstructionScript"
    case Branch => "Branch"
    case Print => "Print"
    case RhaiScript => "RhaiScript"
    case GetVariable => "GetVariable"
    case SetVariable => "SetVariable"
    case SelfActor => "Self"
    case GetActorTransform => "GetActorTransform"
    case SetActorTransform => "SetActorTransform"
    case SpawnActor => "SpawnActor"
    case GetActorByName => "GetActorByName"
    case GetActorName => "GetActorName"
  }

  /** The registry position of the definition registered under `kind`. */
  function GetNodeDefinition(kind: string): (r: Option<nat>)
    ensures r.None? <==> kind !in RegistryKinds
    ensures r.Some? ==> r.value < |RegistryKinds| && RegistryKinds[r.value] == kind
  {
    IndexOf(RegistryKinds, kind)
  }

  /** The built-in kinds in registry order. */
  const RegistryOrder: seq<BuiltinNodeKind> := [
    BeginPlay, Tick, ConstructionScript, Branch, Print, RhaiScript, GetVariable, SetVariable,
    SelfActor, GetActorTransform, SetActorTransform, SpawnActor, GetActorByName, GetActorName]

  /** The registry holds fourteen definitions, one for each built-in kind in the order above,
      under distinct names. */
  lemma RegistryCoversKinds()
    ensures |RegistryKinds| == |RegistryOrder| == 14 && Distinct(RegistryOrder)
    ensures forall i :: 0 <= i < 14 ==> KindName(RegistryOrder[i]) == RegistryKinds[i]
    ensures forall k1, k2 :: KindName(k1) == KindName(k2) ==> k1 == k2
  {
  }

  /** Looking up a registered name yields its own position, so each kind's lookup finds that kind. */
  lemma LookupFindsKind(i: nat)
    requires i < 14
    ensures GetNodeDefinition(KindName(RegistryOrder[i])) == Some(i)
  {
    RegistryCoversKinds();
    var r := GetNodeDefinition(KindName(RegistryOrder[i])).value;
    assert RegistryOrder[r] == RegistryOrder[i];
  }

  function CategoryDisplayName(c: NodeCategory): (s: string)
    ensures |s| > 0
  {
    match c
    case Event => "Events"
    case FlowControl => "Flow Control"
    case Utility => "Utilities"
    case Variable => "Variables"
    case Math => "Math"
    case String => "String"
    case Custom => "Custom"
  }

  /** Colour components are bytes. */
  type u8 = x: int | 0 <= x < 256

  function HeaderColor(c: NodeCategory): (rgb: (u8, u8, u8))
    ensures rgb.0 == rgb.1 == rgb.2 <==> c in {FlowControl, Custom}
  {
    match c
    case Event => (220, 64, 64)
    case FlowControl => (110, 110, 110)
    case Utility => (64, 180, 200)
    case Variable => (64, 180, 96)
    case Math => (80, 220, 80)
    case String => (255, 100, 220)
    case Custom => (120, 120, 120)
  }

  function PinColorForType(t: DataType): (rgb: (u8, u8, u8))
    ensures rgb == (255, 255, 255) <==> t == DataType.Exec
    ensures rgb.0 == rgb.1 == rgb.2 <==> t in {DataType.Exec, DataType.Unit}
  {
    match t
    case Exec => (255, 255, 255)
    case Bool => (220, 96, 96)
    case I32 => (100, 220, 255)
    case F32 => (120, 220, 100)
    case String => (255, 100, 220)
    case Unit => (160, 160, 160)
  }

  /** Category names, header colours and pin colours each tell their arguments apart, and the
      String category's header shares the String pin colour. */
  lemma PaletteDistinct()
    ensures forall a, b :: CategoryDisplayName(a) == CategoryDisplayName(b) ==> a == b
    ensures forall a, b :: HeaderColor(a) == HeaderColor(b) ==> a == b
    ensures forall s, t :: PinColorForType(s) == PinColorForType(t) ==> s == t
    ensures HeaderColor(NodeCategory.String) == PinColorForType(DataType.String)
  {
  }
}
