/**
 The workspace object (src/feature/workspace.cpp): forking, and the loops that write and read it.
 Every method is proved to do what WorkspaceJson.dfy says.
 */
module Workspaces {
  import opened Wrappers
  import opened FeatureModel
  import opened TagAllocation
  import opened ReplaySpec
  import opened TreeState
  import opened FeatureTrees
  import opened ParamJson
  import opened ParamDecoding
  import opened WorkspaceJson
  import opened SchemaVersions
  import S = SchemaRegistries
  import M = MergeSpec
  import L = MergeLaws

  class Workspace {
    const kernel: Kernel
    const tags: TagAllocator
    const tree: FeatureTree
    var name: string
    var parentName: string
    var baseSnapshot: seq<Feature>
    var baseRollbackIndex: int

    ghost predicate Valid()
      reads this, tree, tree.tags
    {
      tree.Valid() && tree.tags == tags && Distinct(Ids(tree.features))
    }

    ghost function Contents(): State
      reads this, tree
    {
      State(name, parentName, tree.features, tree.rollbackIndex, baseSnapshot, baseRollbackIndex)
    }

    constructor (kernel: Kernel, tags: TagAllocator, name: string)
      requires 0 <= tags.counter
      ensures Valid() && fresh(tree) && this.tags == tags && this.kernel == kernel
      ensures Contents() == State(name, "", [], -1, [], -1)
    {
      this.kernel, this.tags := kernel, tags;
      tree := new FeatureTree(kernel, tags);
      this.name, parentName, baseSnapshot, baseRollbackIndex := name, "", [], -1;
    }

    /** The child has a tree of its own; this workspace is left as it is. */
    method ForkAs(newName: string) returns (child: Workspace)
      requires Valid()
      ensures fresh(child) && fresh(child.tree) && child.Valid() && child.tags == tags
      ensures child.Contents() == Fork(Contents(), newName)
    {
      child := new Workspace(kernel, tags, newName);
      child.parentName := name;
      child.Enter(tree.features);
      child.tree.SetRollbackIndex(tree.rollbackIndex);
      child.baseSnapshot := tree.features;
      child.baseRollbackIndex := tree.rollbackIndex;
    }

    /** Adds features with unique ids to an empty tree, which therefore takes them all. */
    method Enter(features: seq<Feature>)
      requires Valid() && tree.features == [] && Distinct(Ids(features))
      modifies tree
      ensures Valid() && tree.features == features && tree.rollbackIndex == old(tree.rollbackIndex)
    {
      for i := 0 to |features|
        invariant Valid() && tree.features == features[..i] && tree.rollbackIndex == old(tree.rollbackIndex)
      {
        NotYetEntered(features, i);
        var ok := tree.AddFeature(features[i]);
        if !ok { break; }
      }
    }

    static method WriteParams(params: map<string, ParamValue>) returns (fields: map<string, Json>)
      ensures fields == ParamsToJson(params)
    {
      fields := map[];
      var todo := params.Keys;
      while todo != {}
        invariant todo <= params.Keys && fields.Keys == params.Keys - todo
        invariant forall p :: p in fields ==> fields[p] == ParamJson.ToJson(params[p])
      {
        var p :| p in todo;
        fields := fields[p := ParamJson.ToJson(params[p])];
        todo := todo - {p};
      }
    }

    /** featuresToJson, feature by feature. */
    static method WriteFeatures(features: seq<Feature>) returns (items: seq<Json>)
      ensures items == FeaturesToJson(features)
    {
      items := [];
      hide ParamsToJson;
      for i := 0 to |features|
        invariant items == FeaturesToJson(features[..i])
      {
        var f := features[i];
        var params := WriteParams(f.params);
        var item := map["id" := JString(f.id)];
        item := item["type" := JString(f.kind)];
        item := item["suppressed" := JBool(f.suppressed)];
        item := item["params" := JObject(params)];
        assert JObject(item) == FeatureToJson(f);
        items := items + [JObject(item)];
      }
      assert features[..|features|] == features;
    }

    method ToJson() returns (doc: Json)
      requires Valid()
      ensures doc == ToDocument(Contents(), tags.documentId)
    {
      hide FeaturesToJson, S.VersionToJson, Decimal;
      var fields := map["_schema" := JString(WORKSPACE_TYPE)];
      fields := fields["_version" := S.VersionToJson(Version(1, 0, 0))];
      fields := fields["_kernelVersion" := JString(KERNEL_VERSION)];
      fields := fields["name" := JString(name)];
      fields := fields["parentName" := JString(parentName)];
      fields := fields["documentId" := JString(Decimal(tags.documentId))];
      var features := WriteFeatures(tree.features);
      fields := fields["features" := JArray(features)];
      fields := fields["rollbackIndex" := JInt(tree.rollbackIndex)];
      var base := WriteFeatures(baseSnapshot);
      fields := fields["baseSnapshot" := JArray(base)];
      fields := fields["baseRollbackIndex" := JInt(baseRollbackIndex)];
      return JObject(fields);
    }

    /** featuresFromJson: the ids seen so far are kept in a set. */
    static method ReadFeatures(fr: Frames, j: Json) returns (r: Option<seq<Feature>>)
      ensures r == DecodeList(fr, j)
      ensures r.Some? ==> Distinct(Ids(r.value))
    {
      if !j.JArray? { return None; }
      var items, out, seen := j.items, [], {};
      hide DecodeFeature;
      for i := 0 to |items|
        invariant DecodeFeatures(fr, items[..i]) == Some(out)
        invariant Distinct(Ids(out)) && seen == set id | id in Ids(out)
      {
        assert items[..i + 1][..i] == items[..i];
        var f := DecodeFeature(fr, items[i]);
        if f.None? || f.value.id in seen {
          ReadingFails(fr, items, i + 1);
          return None;
        }
        AppendDistinct(out, f.value);
        seen := seen + {f.value.id};
        out := out + [f.value];
      }
      assert items[..|items|] == items;
      return Some(out);
    }

    /** fromJSON: null where it reports failure. */
    static method FromJson(fr: Frames, kernel: Kernel, tags: TagAllocator, doc: Json) returns (w: Workspace?)
      requires 0 <= tags.counter
      ensures w == null <==> FromDocument(fr, doc).None?
      ensures w != null ==> fresh(w) && w.Valid() && w.Contents() == FromDocument(fr, doc).value
    {
      hide HeaderAccepted, TextOr, IndexOr, DecodeList;
      if !doc.JObject? || !HeaderAccepted(doc) { return null; }
      var f := doc.fields;
      var name, parent := TextOr(f, "name"), TextOr(f, "parentName");
      if name.None? || parent.None? { return null; }
      var loaded := new Workspace(kernel, tags, name.value);
      loaded.parentName := parent.value;
      if "features" in f {
        var features := ReadFeatures(fr, f["features"]);
        if features.None? { return null; }
        loaded.Enter(features.value);
        var rollback := IndexOr(f, "rollbackIndex");
        if rollback.None? { return null; }
        loaded.tree.SetRollbackIndex(rollback.value);
      }
      if "baseSnapshot" in f {
        var base := ReadFeatures(fr, f["baseSnapshot"]);
        if base.None? { return null; }
        loaded.baseSnapshot := base.value;
      }
      var baseRollback := IndexOr(f, "baseRollbackIndex");
      if baseRollback.None? { return null; }
      loaded.baseRollbackIndex := baseRollback.value;
      return loaded;
    }
  }

  lemma {:induction false} ReadingFails(fr: Frames, items: seq<Json>, i: nat)
    requires i <= |items| && DecodeFeatures(fr, items[..i]).None?
    ensures DecodeFeatures(fr, items).None?
  {
    hide DecodeFeature;
    if i < |items| {
      assert items[..|items| - 1][..i] == items[..i];
      ReadingFails(fr, items[..|items| - 1], i);
    } else {
      assert items[..i] == items;
    }
  }

  lemma {:induction false} AppendDistinct(fs: seq<Feature>, f: Feature)
    requires Distinct(Ids(fs)) && f.id !in Ids(fs)
    ensures Distinct(Ids(fs + [f])) && Ids(fs + [f]) == Ids(fs) + [f.id]
  {
    assert (fs + [f])[..|fs|] == fs;
    DistinctSplit(fs + [f]);
    assert Ids(fs + [f]) == Ids(fs) + [f.id];
  }

  /** Merging a branch back: a fork that was not edited leaves exactly its parent's later work, without conflicts. */
  lemma {:induction false} UntouchedForkMergesBack(w: State, newName: string, parentNow: seq<Feature>)
    requires Distinct(Ids(w.features)) && L.AllNoNaN(w.features)
    ensures var child := Fork(w, newName); var m := M.Merge(child.baseSnapshot, parentNow, child.features);
            && (forall c :: !m.Reports(c))
            && forall id :: id in m.AllIds() ==>
                 (m.Keeps(id) <==> id in Ids(parentNow))
                 && (m.Keeps(id) ==> L.CanonContent(m.Result(id).value) == L.CanonContent(M.Lookup(parentNow, id).value))
  {
    L.OnlyOursChanged(w.features, parentNow);
  }

  lemma {:induction false} NotYetEntered(features: seq<Feature>, i: nat)
    requires i < |features| && Distinct(Ids(features))
    ensures Find(features[..i], features[i].id) < 0
    ensures features[..i + 1] == features[..i] + [features[i]] && Distinct(Ids(features[..i + 1]))
  {
    forall j | 0 <= j < i ensures features[j].id != features[i].id { assert Ids(features)[j] != Ids(features)[i]; }
    var now := Ids(features[..i + 1]);
    forall a, b | 0 <= a < b <= i ensures now[a] != now[b] { assert Ids(features)[a] != Ids(features)[b]; }
  }
}
