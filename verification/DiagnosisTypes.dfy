/** The vocabulary of a diagnosis: events, configuration, cells, node states and the weakness map. */
module DiagnosisTypes {
  import opened Prelude
  import opened SkillGraph

  /** A learning event; `nodeId` is the skill it was tagged with, if any. `rest` stands for the fields that only tell
      events apart: when it happened, the passage, the item format and the number of the right answer. */
  datatype Event = Event(
    id: string,
    area: AreaTag,
    typeTag: TypeTag,
    nodeId: Option<string>,
    correct: bool,
    confirmed: bool,
    chosenNo: Option<int>,
    misconception: Option<string>,
    rest: string)

  datatype Config = Config(
    cellMinItems: nat,
    relativeCutPp: real,
    severitySaturation: real,
    decay: real,
    propagateThreshold: real,
    suspectDamping: real,
    nodeMinItems: nat)
  {
    /** The field constraints of the configuration model. */
    predicate Valid() {
      && cellMinItems >= 1 && nodeMinItems >= 1
      && relativeCutPp < 0.0
      && severitySaturation > 0.0
      && 0.0 < decay <= 1.0
      && propagateThreshold >= 0.0
      && 0.0 < suspectDamping <= 1.0
    }
  }

  /** The versions a diagnosis is asked for and reports back. */
  datatype Versions = Versions(graph: string, taxonomy: string, config: string)

  datatype Coordinate = Coordinate(area: AreaTag, typeTag: TypeTag)

  datatype CellVerdict = UnknownCell | WeakCell | OkCell

  datatype Cell = Cell(accuracy: real, n: nat, verdict: CellVerdict, severity: Option<real>)

  datatype NodeVerdict = Suspect | WeakConfirmed | OkNode

  /** What a node verdict rests on. */
  datatype Basis = CellBasis(coordinate: Coordinate) | EventBasis(id: string)

  datatype NodeState = NodeState(verdict: NodeVerdict, severity: Option<real>, basis: seq<Basis>)

  datatype PropagatedNode = PropagatedNode(score: real, origins: seq<string>)
}
