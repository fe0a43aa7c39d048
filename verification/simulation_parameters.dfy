/**
  Assembly of the simulation inputs (estimatorMap.py, lines 206-219).

  The simulation engine is an opaque sink of named inputs: `pv.new()` makes an
  engine with no inputs set, `value(k, v)` sets one, and
  `SystemDesign.subarray1_tilt = t` and `SolarResource.solar_resource_file = p`
  set the inputs named `subarray1_tilt` and `solar_resource_file`.  The template
  is the JSON object read from the file of the chosen aerator.
*/
module SimulationParameters {

  /** A JSON value of a template, as the engine receives it. */
  datatype Value =
    | Null
    | Bool(b: bool)
    | Number(n: real)
    | Text(s: string)
    | Array(items: seq<Value>)
    | Object(fields: map<string, Value>)

  type Template = map<string, Value>

  const TwoPanelTemplate: string := "./2-Panel_pvsamv1.json"
  const FourPanelTemplate: string := "./4-Panel_pvsamv1.json"
  const TwoPanel: string := "2-Panel"

  /** The template key that is not an engine input. */
  const NumberInputs: string := "number_inputs"
  const TiltInput: string := "subarray1_tilt"
  const ResourceFileInput: string := "solar_resource_file"

  /** The template file for an aerator: the 2-panel one for "2-Panel", the 4-panel one otherwise. */
  function TemplatePath(aerator: string): (path: string)
    ensures path == TwoPanelTemplate <==> aerator == TwoPanel
    ensures path == FourPanelTemplate <==> aerator != TwoPanel
  {
    if aerator == TwoPanel then TwoPanelTemplate else FourPanelTemplate
  }

  /**
    The inputs the engine holds once assembly is done: every template entry but
    `number_inputs`, then the tilt and the resource file set over them.
  */
  function Inputs(template: Template, tilt: int, resourceFile: string): (inputs: map<string, Value>)
    ensures NumberInputs !in inputs
    ensures inputs.Keys == template.Keys - {NumberInputs} + {TiltInput, ResourceFileInput}
    ensures forall k :: k in template && k !in {NumberInputs, TiltInput, ResourceFileInput} ==>
      inputs[k] == template[k]
    ensures inputs[TiltInput] == Number(tilt as real)
    ensures inputs[ResourceFileInput] == Text(resourceFile)
  {
    (map k | k in template && k != NumberInputs :: template[k])
      [TiltInput := Number(tilt as real)]
      [ResourceFileInput := Text(resourceFile)]
  }

  /** The simulation engine, seen only through the inputs set on it. */
  class PvModel {
    var inputs: map<string, Value>

    /** `pv.new()` */
    constructor ()
      ensures inputs == map[]
    {
      inputs := map[];
    }

    /** `value(key, v)`, and the attribute assignments that name an input. */
    method SetValue(key: string, v: Value)
      modifies this
      ensures inputs == old(inputs)[key := v]
    {
      inputs := inputs[key := v];
    }
  }

  /**
    Lines 206-219: a new engine, every template entry but `number_inputs` pushed
    into it one by one, then the tilt and the resource file.
  */
  method Configure(template: Template, tilt: int, resourceFile: string) returns (pv: PvModel)
    ensures fresh(pv)
    ensures pv.inputs == Inputs(template, tilt, resourceFile)
  {
    pv := new PvModel();
    var pending := template.Keys;
    while pending != {}
      invariant pending <= template.Keys
      invariant pv.inputs == map k | k in template && k !in pending && k != NumberInputs :: template[k]
      decreases pending
    {
      var k :| k in pending;
      if k != NumberInputs {
        pv.SetValue(k, template[k]);
      }
      pending := pending - {k};
    }
    pv.SetValue(TiltInput, Number(tilt as real));
    pv.SetValue(ResourceFileInput, Text(resourceFile));
  }
}
