/**
 * The model registry hook (`register_models`): one MLC model per
 * sub-directory of `<user dir>/mlc/dist/prebuilt`, except the shared `lib`
 * directory.
 */
module Registry {
  import opened Wrappers

  /** One entry of the prebuilt directory listing. */
  datatype Child = Child(name: string, isDir: bool)

  /** What is handed to the host's `register`: `MlcModel(model_id, model_path)`. */
  datatype ModelEntry = ModelEntry(modelId: string, modelPath: string)

  /** The directory that holds the shared libraries rather than a model. */
  const LibDir: string := "lib"

  predicate IsModelDir(c: Child) {
    c.isDir && c.name != LibDir
  }

  /** The entry for a child of the prebuilt directory whose absolute path is `prebuiltPath`. */
  function EntryFor(c: Child, prebuiltPath: string): ModelEntry {
    ModelEntry(c.name, prebuiltPath + "/" + c.name)
  }

  /**
   * The models a listing yields, in listing order: at most one per child,
   * never one named `lib`, each living in the prebuilt directory under its
   * own name.
   */
  function ModelsIn(children: seq<Child>, prebuiltPath: string): (models: seq<ModelEntry>)
    ensures |models| <= |children|
    ensures forall m | m in models ::
      m.modelId != LibDir && m.modelPath == prebuiltPath + "/" + m.modelId
  {
    if children == [] then []
    else
      var rest := ModelsIn(children[1..], prebuiltPath);
      if IsModelDir(children[0]) then [EntryFor(children[0], prebuiltPath)] + rest else rest
  }

  /**
   * Registers the models found in the prebuilt directory. `listing` is the
   * directory's children in iteration order, or `None` when the directory
   * does not exist; the result is the sequence of `register` calls made.
   */
  method RegisterModels(listing: Option<seq<Child>>, prebuiltPath: string)
    returns (registered: seq<ModelEntry>)
    ensures listing.None? ==> registered == []
    ensures listing.Some? ==> registered == ModelsIn(listing.value, prebuiltPath)
  {
    registered := [];
    if listing.None? {
      return;
    }
    var children := listing.value;
    for i := 0 to |children|
      invariant registered == ModelsIn(children[..i], prebuiltPath)
    {
      var child := children[i];
      ModelsInAppend(children[..i], [child], prebuiltPath);
      assert children[..i + 1] == children[..i] + [child];
      if child.isDir && child.name != LibDir {
        registered := registered + [ModelEntry(child.name, prebuiltPath + "/" + child.name)];
      }
    }
    assert children[..|children|] == children;
  }

  /** Scanning a listing in two parts yields the two parts' models one after the other. */
  lemma {:induction false} ModelsInAppend(xs: seq<Child>, ys: seq<Child>, prebuiltPath: string)
    ensures ModelsIn(xs + ys, prebuiltPath) == ModelsIn(xs, prebuiltPath) + ModelsIn(ys, prebuiltPath)
  {
    if xs == [] {
      assert xs + ys == ys;
    } else {
      assert (xs + ys)[1..] == xs[1..] + ys;
      ModelsInAppend(xs[1..], ys, prebuiltPath);
    }
  }

  /**
   * `idx` lists, in increasing order, the positions of all children that are
   * directories not named `lib`, and the k-th of `models` is the entry of the
   * child at `idx[k]`.
   */
  ghost predicate PositionsOf(children: seq<Child>, models: seq<ModelEntry>, prebuiltPath: string, idx: seq<int>) {
    && |idx| == |models|
    && (forall k | 0 <= k < |idx| ::
          0 <= idx[k] < |children| && IsModelDir(children[idx[k]]) &&
          models[k] == EntryFor(children[idx[k]], prebuiltPath))
    && (forall a, b | 0 <= a < b < |idx| :: idx[a] < idx[b])
    && (forall i | 0 <= i < |children| && IsModelDir(children[i]) :: i in idx)
  }

  /**
   * The registered models are exactly the qualifying children, once each and
   * in listing order, each with the child's name as its id.
   */
  lemma {:induction false} ModelsInPositions(children: seq<Child>, prebuiltPath: string)
    returns (idx: seq<int>)
    ensures PositionsOf(children, ModelsIn(children, prebuiltPath), prebuiltPath, idx)
  {
    if children == [] {
      return [];
    }
    var restModels := ModelsIn(children[1..], prebuiltPath);
    var rest := ModelsInPositions(children[1..], prebuiltPath);
    var shifted := Shifted(children, restModels, prebuiltPath, rest);
    if IsModelDir(children[0]) {
      assert ModelsIn(children, prebuiltPath) == [EntryFor(children[0], prebuiltPath)] + restModels;
      idx := PrependFirst(children, restModels, prebuiltPath, shifted);
    } else {
      assert ModelsIn(children, prebuiltPath) == restModels;
      assert PositionsOf(children, restModels, prebuiltPath, shifted);
      idx := shifted;
    }
  }

  /**
   * The positions in `children[1..]`, moved one place up, are the positions
   * in `children` of the qualifying children after the first.
   */
  lemma Shifted(children: seq<Child>, models: seq<ModelEntry>, prebuiltPath: string, rest: seq<int>)
    returns (shifted: seq<int>)
    requires children != []
    requires PositionsOf(children[1..], models, prebuiltPath, rest)
    ensures |shifted| == |models|
    ensures forall k | 0 <= k < |shifted| ::
      1 <= shifted[k] < |children| && IsModelDir(children[shifted[k]]) &&
      models[k] == EntryFor(children[shifted[k]], prebuiltPath)
    ensures forall a, b | 0 <= a < b < |shifted| :: shifted[a] < shifted[b]
    ensures forall i | 1 <= i < |children| && IsModelDir(children[i]) :: i in shifted
  {
    var tail := children[1..];
    shifted := ShiftUp(rest);
    forall k | 0 <= k < |shifted|
      ensures 1 <= shifted[k] < |children| && IsModelDir(children[shifted[k]]) &&
              models[k] == EntryFor(children[shifted[k]], prebuiltPath)
    {
      assert 0 <= rest[k] < |tail| && IsModelDir(tail[rest[k]]);
      assert models[k] == EntryFor(tail[rest[k]], prebuiltPath);
      assert children[shifted[k]] == tail[rest[k]];
    }
    forall a, b | 0 <= a < b < |shifted| ensures shifted[a] < shifted[b] {
      assert rest[a] < rest[b];
    }
    forall i | 1 <= i < |children| && IsModelDir(children[i]) ensures i in shifted {
      assert tail[i - 1] == children[i];
      assert i - 1 in rest;
      var k :| 0 <= k < |rest| && rest[k] == i - 1;
      assert shifted[k] == i;
    }
  }

  /** Each position moved one place up. */
  function ShiftUp(positions: seq<int>): (shifted: seq<int>)
    ensures |shifted| == |positions|
    ensures forall k | 0 <= k < |positions| :: shifted[k] == positions[k] + 1
  {
    if positions == [] then [] else [positions[0] + 1] + ShiftUp(positions[1..])
  }

  /** When the first child qualifies, its position 0 comes before the shifted ones. */
  lemma PrependFirst(children: seq<Child>, models: seq<ModelEntry>, prebuiltPath: string, shifted: seq<int>)
    returns (idx: seq<int>)
    requires children != [] && IsModelDir(children[0])
    requires |shifted| == |models|
    requires forall k | 0 <= k < |shifted| ::
      1 <= shifted[k] < |children| && IsModelDir(children[shifted[k]]) &&
      models[k] == EntryFor(children[shifted[k]], prebuiltPath)
    requires forall a, b | 0 <= a < b < |shifted| :: shifted[a] < shifted[b]
    requires forall i | 1 <= i < |children| && IsModelDir(children[i]) :: i in shifted
    ensures PositionsOf(children, [EntryFor(children[0], prebuiltPath)] + models, prebuiltPath, idx)
  {
    idx := [0] + shifted;
    var all := [EntryFor(children[0], prebuiltPath)] + models;
    forall k | 0 <= k < |idx|
      ensures 0 <= idx[k] < |children| && IsModelDir(children[idx[k]]) &&
              all[k] == EntryFor(children[idx[k]], prebuiltPath)
    {
      if k > 0 {
        assert idx[k] == shifted[k - 1] && all[k] == models[k - 1];
      }
    }
    forall a, b | 0 <= a < b < |idx| ensures idx[a] < idx[b] {
      if a > 0 {
        assert idx[a] == shifted[a - 1] && idx[b] == shifted[b - 1];
      }
    }
    forall i | 0 <= i < |children| && IsModelDir(children[i]) ensures i in idx {
      if i > 0 {
        var k :| 0 <= k < |shifted| && shifted[k] == i;
        assert idx[k + 1] == i;
      }
    }
  }

  /** Children with distinct names give models with distinct ids. */
  lemma ModelsInDistinct(children: seq<Child>, prebuiltPath: string)
    requires forall i, j | 0 <= i < j < |children| :: children[i].name != children[j].name
    ensures forall a, b | 0 <= a < b < |ModelsIn(children, prebuiltPath)| ::
      ModelsIn(children, prebuiltPath)[a].modelId != ModelsIn(children, prebuiltPath)[b].modelId
  {
    var idx := ModelsInPositions(children, prebuiltPath);
  }
}
