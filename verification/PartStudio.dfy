/**
 PartStudio::execute (src/feature/part_studio.cpp): a replay under one configuration, and exactly
 when it is the pure function of features, schema, configuration and document it is documented to be.
 */
module PartStudios {
  import opened Wrappers
  import opened FeatureModel
  import opened TagAllocation
  import opened ReplaySpec
  import opened TreeState
  import opened ReplayTheory
  import opened ReplayShapes
  import opened Config
  import opened FeatureTrees

  type Values = map<string, ParamValue>

  datatype ExecuteStatus = StudioOk | Partial | StudioFailed

  datatype Outputs = Outputs(status: ExecuteStatus, finalShape: NamedShape, broken: seq<Feature>)

  function Substitution(inputs: seq<InputSpec>, values: Values): Transformer {
    Some((f: Feature) => ResolveRefs(f, inputs, values))
  }

  function Broken(fs: seq<Feature>): seq<Feature> {
    if fs == [] then []
    else
      var last := fs[|fs| - 1];
      Broken(fs[..|fs| - 1]) + if Failed(last.status) then [last] else []
  }

  function Report(fs: seq<Feature>, shape: NamedShape): Outputs {
    Outputs(if shape.NullShape? then StudioFailed else if Broken(fs) != [] then Partial else StudioOk, shape, Broken(fs))
  }

  ghost function Execute(k: Kernel, t: Tree, inputs: seq<InputSpec>, values: Values): (Tree, Outputs) {
    if !ValidConfig(inputs, values) then (t, Outputs(StudioFailed, NullShape, []))
    else
      var (t', shape) := Replay(k, Substitution(inputs, values), t);
      (t', Report(t'.features, shape))
  }

  class PartStudio {
    const tree: FeatureTree
    const schema: ConfigSchema

    ghost predicate Valid()
      reads this, tree, tree.tags, schema
    {
      tree.Valid() && schema.Valid() && tree.transformer == None
    }

    constructor (kernel: Kernel, tags: TagAllocator)
      requires 0 <= tags.counter
      ensures Valid() && fresh(tree) && fresh(schema) && tree.tags == tags && tree.kernel == kernel
      ensures tree.features == [] && schema.inputs == []
    {
      tree := new FeatureTree(kernel, tags);
      schema := new ConfigSchema();
    }

    method CollectBroken() returns (broken: seq<Feature>)
      ensures broken == Broken(tree.features)
    {
      broken := [];
      var fs := tree.features;
      for i := 0 to |fs|
        invariant broken == Broken(fs[..i])
      {
        assert fs[..i + 1][..i] == fs[..i];
        if Failed(fs[i].status) { broken := broken + [fs[i]]; }
      }
      assert fs[..|fs|] == fs;
    }

    /** The transformer is gone on both exits: after a rejected configuration and after a replay. */
    method ExecuteConfig(config: ConfigValue) returns (out: Outputs)
      requires Valid()
      modifies tree`features, tree`cache, tree`dirty, tree`snapshots, tree`transformer, tree.tags`counter, tree.tags`documentId
      ensures Valid()
      ensures (tree.State(), out) == Execute(tree.kernel, old(tree.State()), schema.inputs, config.values)
    {
      var ok := ValidateConfig(schema.inputs, config.values);
      if !ok { return Outputs(StudioFailed, NullShape, []); }
      tree.transformer := Substitution(schema.inputs, config.values);
      assert tree.Valid() && tree.State() == old(tree.State());
      var shape := tree.ReplayAll();
      hide *;
      var broken := CollectBroken();
      var status := if shape.NullShape? then StudioFailed else if broken != [] then Partial else StudioOk;
      out := Outputs(status, shape, broken);
      tree.transformer := None;
    }
  }
}
