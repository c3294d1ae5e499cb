/** The evaluation pass of `Generator::processFrame` and `JSONWorker::process`:
    walk the root's `"g"` array, each group's `"d"` array and each dataset's
    `"v"` text, evaluate the text with the JavaScript engine and, when the
    evaluation does not error, store the engine's string result as the new
    `"v"`. The engine is a foreign component: its state is the sequence of
    scripts it has evaluated so far, and `Evaluator` gives the result (or the
    error) of one more script in that state. */
module DocumentBuilder {
  import opened Wrappers
  import opened Json

  type Evaluator = (seq<string>, string) -> Option<string>

  /** `dataset.toObject().value("v").toString()` */
  function Expression(dataset: Value): string
  {
    TextMember(ToObject(dataset), "v")
  }

  /** `group.toObject().value("d").toArray()` */
  function Datasets(group: Value): seq<Value>
  {
    ArrayMember(ToObject(group), "d")
  }

  /** `document.object().value("g").toArray()` */
  function Groups(root: Value): seq<Value>
  {
    ArrayMember(ToObject(root), "g")
  }

  /** The scripts the engine runs for these datasets, in order. */
  function Expressions(datasets: seq<Value>): seq<string>
  {
    seq(|datasets|, j requires 0 <= j < |datasets| => Expression(datasets[j]))
  }

  /** The scripts the engine runs for these groups, group after group. */
  function GroupExpressions(groups: seq<Value>): seq<string>
    decreases |groups|
  {
    if groups == [] then []
    else GroupExpressions(groups[..|groups| - 1]) + Expressions(Datasets(groups[|groups| - 1]))
  }

  /** The dataset after its evaluation: a result replaces `"v"` (an object is
      made of a dataset that was not one), an error keeps the dataset as it was. */
  function Evaluated(dataset: Value, result: Option<string>): (r: Value)
    ensures result.None? ==> r == dataset
    ensures result.Some? ==> r.Object? && "v" in r.members && r.members["v"] == Str(result.value)
    ensures result.Some? ==> r.members.Keys == ToObject(dataset).Keys + {"v"}
    ensures result.Some? ==> forall key :: key in ToObject(dataset) && key != "v" ==> r.members[key] == ToObject(dataset)[key]
  {
    match result
    case Some(text) => Object(ToObject(dataset)["v" := Str(text)])
    case None => dataset
  }

  /** The datasets of one group after the inner loop, the engine having run
      `history` before the first of them. */
  function EvaluatedDatasets(datasets: seq<Value>, history: seq<string>, eval: Evaluator): (r: seq<Value>)
    ensures |r| == |datasets|
  {
    seq(|datasets|, j requires 0 <= j < |datasets| =>
      Evaluated(datasets[j], eval(history + Expressions(datasets[..j]), Expression(datasets[j]))))
  }

  /** A group after its datasets were evaluated: `"d"` is replaced by the
      evaluated array (an object is made of a group that was not one). */
  function EvaluatedGroup(group: Value, history: seq<string>, eval: Evaluator): Value
  {
    Object(ToObject(group)["d" := Array(EvaluatedDatasets(Datasets(group), history, eval))])
  }

  function EvaluatedGroups(groups: seq<Value>, history: seq<string>, eval: Evaluator): (r: seq<Value>)
    ensures |r| == |groups|
  {
    seq(|groups|, i requires 0 <= i < |groups| =>
      EvaluatedGroup(groups[i], history + GroupExpressions(groups[..i]), eval))
  }

  /** The document `QJsonDocument(root)` built from the parsed document. */
  function Built(document: Value, history: seq<string>, eval: Evaluator): Value
  {
    Object(ToObject(document)["g" := Array(EvaluatedGroups(Groups(document), history, eval))])
  }

  /** The engine's history after the pass: every dataset's script, in document order. */
  function EngineAfter(document: Value, history: seq<string>): seq<string>
  {
    history + GroupExpressions(Groups(document))
  }

  lemma GroupExpressionsSnoc(groups: seq<Value>, i: nat)
    requires i < |groups|
    ensures GroupExpressions(groups[..i + 1]) == GroupExpressions(groups[..i]) + Expressions(Datasets(groups[i]))
  {
    assert groups[..i + 1][..i] == groups[..i];
    assert groups[..i + 1][i] == groups[i];
  }

  /** The inner loop: evaluate each dataset of one group, replacing it in place. */
  method EvaluateDatasets(items: seq<Value>, history: seq<string>, eval: Evaluator) returns (datasets: seq<Value>, engine: seq<string>)
    ensures datasets == EvaluatedDatasets(items, history, eval)
    ensures engine == history + Expressions(items)
  {
    datasets := items;
    engine := history;
    for j := 0 to |datasets|
      invariant |datasets| == |items|
      invariant forall k :: 0 <= k < j ==>
        datasets[k] == Evaluated(items[k], eval(history + Expressions(items[..k]), Expression(items[k])))
      invariant forall k :: j <= k < |datasets| ==> datasets[k] == items[k]
      invariant engine == history + Expressions(items[..j])
    {
      var dataset := ToObject(datasets[j]);
      var value := TextMember(dataset, "v");
      var result := eval(engine, value);
      assert Expressions(items[..j + 1]) == Expressions(items[..j]) + [value];
      engine := engine + [value];
      if result.Some? {
        dataset := dataset["v" := Str(result.value)];
        datasets := datasets[j := Object(dataset)];
      }
    }
    assert items[..|items|] == items;
  }

  /** The groups of the outer loop after `i` iterations: those before `i`
      are evaluated, each after the scripts of the groups before it; the rest
      are as parsed. */
  predicate GroupsEvaluatedUpTo(groups: seq<Value>, original: seq<Value>, i: nat, history: seq<string>, eval: Evaluator)
  {
    && i <= |original| && |groups| == |original|
    && (forall k :: 0 <= k < i ==>
          groups[k] == EvaluatedGroup(original[k], history + GroupExpressions(original[..k]), eval))
    && (forall k :: i <= k < |groups| ==> groups[k] == original[k])
  }

  /** One iteration of the outer loop keeps that invariant: the group at `i`
      gets the evaluated datasets as its `"d"`. */
  lemma GroupsEvaluatedStep(groups: seq<Value>, original: seq<Value>, i: nat, history: seq<string>,
                            eval: Evaluator, datasets: seq<Value>)
    requires GroupsEvaluatedUpTo(groups, original, i, history, eval) && i < |original|
    requires datasets == EvaluatedDatasets(Datasets(groups[i]), history + GroupExpressions(original[..i]), eval)
    ensures GroupsEvaluatedUpTo(groups[i := Object(ToObject(groups[i])["d" := Array(datasets)])], original, i + 1, history, eval)
  {
    assert groups[i] == original[i];
  }

  /** After the last iteration the groups are the evaluated groups. */
  lemma GroupsEvaluatedAll(groups: seq<Value>, original: seq<Value>, history: seq<string>, eval: Evaluator)
    requires GroupsEvaluatedUpTo(groups, original, |original|, history, eval)
    ensures groups == EvaluatedGroups(original, history, eval)
  {
    forall k | 0 <= k < |groups|
      ensures groups[k] == EvaluatedGroups(original, history, eval)[k]
    {
    }
  }

  /** The body of the outer loop: evaluate the datasets of the group at `i`
      and put them back as its `"d"`. */
  method EvaluateGroupAt(groups: seq<Value>, ghost original: seq<Value>, i: nat, ghost history: seq<string>,
                         engine: seq<string>, eval: Evaluator)
    returns (updated: seq<Value>, engineAfter: seq<string>)
    requires GroupsEvaluatedUpTo(groups, original, i, history, eval) && i < |original|
    requires engine == history + GroupExpressions(original[..i])
    ensures GroupsEvaluatedUpTo(updated, original, i + 1, history, eval)
    ensures engineAfter == history + GroupExpressions(original[..i + 1])
  {
    var group := ToObject(groups[i]);
    var datasets;
    datasets, engineAfter := EvaluateDatasets(ArrayMember(group, "d"), engine, eval);
    GroupsEvaluatedStep(groups, original, i, history, eval, datasets);
    GroupExpressionsSnoc(original, i);
    updated := groups[i := Object(group["d" := Array(datasets)])];
  }

  /** The outer loop over the groups. */
  method EvaluateGroups(original: seq<Value>, history: seq<string>, eval: Evaluator) returns (groups: seq<Value>, engine: seq<string>)
    ensures groups == EvaluatedGroups(original, history, eval)
    ensures engine == history + GroupExpressions(original)
  {
    groups := original;
    engine := history;
    assert original[..0] == [];
    for i := 0 to |original|
      invariant GroupsEvaluatedUpTo(groups, original, i, history, eval)
      invariant engine == history + GroupExpressions(original[..i])
    {
      groups, engine := EvaluateGroupAt(groups, original, i, history, engine, eval);
    }
    assert original[..|original|] == original;
    GroupsEvaluatedAll(groups, original, history, eval);
  }

  /** The evaluation pass, then the root's `"g"` is replaced. */
  method Evaluate(document: Value, history: seq<string>, eval: Evaluator) returns (built: Value, engine: seq<string>)
    ensures built == Built(document, history, eval)
    ensures engine == EngineAfter(document, history)
  {
    var root := ToObject(document);
    var groups;
    groups, engine := EvaluateGroups(ArrayMember(root, "g"), history, eval);
    root := root["g" := Array(groups)];
    built := Object(root);
  }

  /** The pass keeps the number and the order of the groups and of each
      group's datasets; every dataset either keeps its value (the script
      errored) or gets the engine's result as `"v"` and keeps its other keys;
      the groups and the root change no key but `"d"` and `"g"`. */
  lemma BuiltShape(document: Value, history: seq<string>, eval: Evaluator)
    ensures var built := Built(document, history, eval);
      && built.Object?
      && built.members.Keys == ToObject(document).Keys + {"g"}
      && (forall key :: key in ToObject(document) && key != "g" ==> built.members[key] == ToObject(document)[key])
      && |Groups(built)| == |Groups(document)|
      && forall i :: 0 <= i < |Groups(document)| ==>
           var group, before := Groups(built)[i], Groups(document)[i];
           && group.Object?
           && group.members.Keys == ToObject(before).Keys + {"d"}
           && (forall key :: key in ToObject(before) && key != "d" ==> group.members[key] == ToObject(before)[key])
           && |Datasets(group)| == |Datasets(before)|
           && forall j :: 0 <= j < |Datasets(before)| ==>
                var result := eval(history + GroupExpressions(Groups(document)[..i]) + Expressions(Datasets(before)[..j]),
                                   Expression(Datasets(before)[j]));
                Datasets(group)[j] == Evaluated(Datasets(before)[j], result)
  {
    var built := Built(document, history, eval);
    var groups := Groups(document);
    assert Groups(built) == EvaluatedGroups(groups, history, eval);
    forall i | 0 <= i < |groups|
      ensures Datasets(Groups(built)[i]) == EvaluatedDatasets(Datasets(groups[i]), history + GroupExpressions(groups[..i]), eval)
    {
    }
  }

  /** When every script errors, a document that already has the shape the
      pass writes comes back unchanged. */
  lemma {:induction false} BuiltUnchangedWhenAllFail(document: Value, history: seq<string>, eval: Evaluator)
    requires forall h, e :: eval(h, e) == None
    requires document.Object? && "g" in document.members && document.members["g"].Array?
    requires forall group :: group in Groups(document) ==>
      group.Object? && "d" in group.members && group.members["d"].Array?
    ensures Built(document, history, eval) == document
  {
    var groups := Groups(document);
    var evaluated := EvaluatedGroups(groups, history, eval);
    forall i | 0 <= i < |groups|
      ensures evaluated[i] == groups[i]
    {
      var group := groups[i];
      assert group in groups;
      var datasets := Datasets(group);
      var h := history + GroupExpressions(groups[..i]);
      forall j | 0 <= j < |datasets|
        ensures EvaluatedDatasets(datasets, h, eval)[j] == datasets[j]
      {
        assert eval(h + Expressions(datasets[..j]), Expression(datasets[j])) == None;
      }
      assert EvaluatedDatasets(datasets, h, eval) == datasets;
      assert group.members["d"] == Array(datasets);
      assert group.members["d" := Array(datasets)] == group.members;
    }
    assert evaluated == groups;
    assert document.members["g"] == Array(groups);
    assert document.members["g" := Array(groups)] == document.members;
  }
}
