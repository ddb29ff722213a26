/** `GetFluentErrors`: turns a validation result into a FluentResults result with one
    error per property that failed, in the order the properties first failed, carrying
    that property's messages, in order, as its reasons. */
module ValidationResultExtensions {
  import opened Wrappers
  import opened Validators

  // ----- the reference: what the grouping must produce -----

  /** The property names among `fs`, each once, in order of first occurrence. */
  function DistinctProperties(fs: seq<ValidationFailure>): (ps: seq<string>)
    ensures forall i :: 0 <= i < |fs| ==> fs[i].propertyName in ps
    ensures forall p :: p in ps ==> exists i :: 0 <= i < |fs| && fs[i].propertyName == p
    ensures forall i, j :: 0 <= i < j < |ps| ==> ps[i] != ps[j]
  {
    if fs == [] then []
    else
      var ps := DistinctProperties(fs[..|fs| - 1]);
      var p := fs[|fs| - 1].propertyName;
      assert forall i :: 0 <= i < |fs| - 1 ==> fs[..|fs| - 1][i] == fs[i];
      if p in ps then ps else ps + [p]
  }

  /** The messages of the failures of property `p`, in their original order. */
  function MessagesFor(fs: seq<ValidationFailure>, p: string): seq<string> {
    if fs == [] then []
    else (if fs[0].propertyName == p then [fs[0].errorMessage] else []) + MessagesFor(fs[1..], p)
  }

  /** The error FluentResults builds for one property. */
  function FieldError(p: string, messages: seq<string>): Error {
    Error("Invalid field: " + p, messages)
  }

  /** The errors of a failed validation, one per distinct property. */
  function FluentErrors(fs: seq<ValidationFailure>): (es: seq<Error>)
    ensures |es| == |DistinctProperties(fs)|
  {
    var ps := DistinctProperties(fs);
    seq(|ps|, i requires 0 <= i < |ps| => FieldError(ps[i], MessagesFor(fs, ps[i])))
  }

  function TotalReasons(es: seq<Error>): nat {
    if es == [] then 0 else |es[0].reasons| + TotalReasons(es[1..])
  }

  // ----- LINQ's GroupBy: one pass, appending to the group of each failure's key -----

  datatype Group = Group(key: string, messages: seq<string>)

  function Keys(gs: seq<Group>): (ks: seq<string>)
    ensures |ks| == |gs| && forall i :: 0 <= i < |gs| ==> ks[i] == gs[i].key
  {
    if gs == [] then [] else [gs[0].key] + Keys(gs[1..])
  }

  /** Adds failure `f` to the group of its property, opening a new group at the end
      when the property has none yet. */
  function AddToGroups(gs: seq<Group>, f: ValidationFailure): seq<Group> {
    if gs == [] then [Group(f.propertyName, [f.errorMessage])]
    else if gs[0].key == f.propertyName then [gs[0].(messages := gs[0].messages + [f.errorMessage])] + gs[1..]
    else [gs[0]] + AddToGroups(gs[1..], f)
  }

  /** `errors.GroupBy(e => e.PropertyName)` followed by `ToDictionary`, whose keys are
      enumerated in insertion order. */
  function GroupByProperty(fs: seq<ValidationFailure>): seq<Group> {
    if fs == [] then [] else AddToGroups(GroupByProperty(fs[..|fs| - 1]), fs[|fs| - 1])
  }

  predicate DistinctKeys(gs: seq<Group>) {
    forall i, j :: 0 <= i < j < |gs| ==> gs[i].key != gs[j].key
  }

  /** Adding a failure appends its property to the keys when it had no group yet. */
  lemma {:induction false} AddToGroupsKeys(gs: seq<Group>, f: ValidationFailure)
    ensures Keys(AddToGroups(gs, f))
      == (if f.propertyName in Keys(gs) then Keys(gs) else Keys(gs) + [f.propertyName])
  {
    if gs != [] && gs[0].key != f.propertyName {
      AddToGroupsKeys(gs[1..], f);
      assert Keys(gs) == [gs[0].key] + Keys(gs[1..]);
      assert f.propertyName in Keys(gs) <==> f.propertyName in Keys(gs[1..]);
    }
  }

  /** Adding a failure extends the messages of its property's group and of no other. */
  lemma {:induction false} AddToGroupsMessages(gs: seq<Group>, f: ValidationFailure)
    requires DistinctKeys(gs)
    ensures |AddToGroups(gs, f)| >= |gs|
    ensures forall i :: 0 <= i < |gs| ==>
      AddToGroups(gs, f)[i].messages == gs[i].messages + (if gs[i].key == f.propertyName then [f.errorMessage] else [])
    ensures |AddToGroups(gs, f)| > |gs| ==> AddToGroups(gs, f)[|gs|].messages == [f.errorMessage]
  {
    if gs != [] && gs[0].key != f.propertyName {
      AddToGroupsMessages(gs[1..], f);
    }
  }

  lemma {:induction false} MessagesForSnoc(fs: seq<ValidationFailure>, f: ValidationFailure, p: string)
    ensures MessagesFor(fs + [f], p) == MessagesFor(fs, p) + (if f.propertyName == p then [f.errorMessage] else [])
  {
    if fs != [] {
      assert (fs + [f])[1..] == fs[1..] + [f];
      MessagesForSnoc(fs[1..], f, p);
    }
  }

  /** The one-pass grouping yields exactly the reference: a group per distinct property,
      in first-occurrence order, holding that property's messages in order. */
  lemma {:induction false} GroupByPropertyIsReference(fs: seq<ValidationFailure>)
    ensures var gs := GroupByProperty(fs);
      && Keys(gs) == DistinctProperties(fs)
      && DistinctKeys(gs)
      && forall i :: 0 <= i < |gs| ==> gs[i].messages == MessagesFor(fs, gs[i].key)
  {
    if fs != [] {
      var init, f := fs[..|fs| - 1], fs[|fs| - 1];
      assert fs == init + [f];
      GroupByPropertyIsReference(init);
      var gs0 := GroupByProperty(init);
      var gs := AddToGroups(gs0, f);
      assert gs == GroupByProperty(fs);
      AddToGroupsKeys(gs0, f);
      assert Keys(gs) == DistinctProperties(fs);
      forall i | 0 <= i < |gs|
        ensures gs[i].messages == MessagesFor(fs, gs[i].key)
      {
        MessagesAfterAdd(init, f, gs0, i);
      }
    }
  }

  /** One step of the grouping keeps every group's messages those of its key. */
  lemma MessagesAfterAdd(init: seq<ValidationFailure>, f: ValidationFailure, gs0: seq<Group>, i: int)
    requires Keys(gs0) == DistinctProperties(init) && DistinctKeys(gs0)
    requires 0 <= i < |AddToGroups(gs0, f)|
    requires i < |gs0| ==> gs0[i].messages == MessagesFor(init, gs0[i].key)
    ensures AddToGroups(gs0, f)[i].messages == MessagesFor(init + [f], AddToGroups(gs0, f)[i].key)
  {
    var gs := AddToGroups(gs0, f);
    AddToGroupsKeys(gs0, f);
    AddToGroupsMessages(gs0, f);
    MessagesForSnoc(init, f, gs[i].key);
    if i < |gs0| {
      assert gs[i].key == Keys(gs)[i] == Keys(gs0)[i] == gs0[i].key;
      assert gs[i].messages == gs0[i].messages + (if gs0[i].key == f.propertyName then [f.errorMessage] else []);
    } else {
      assert gs[i].key == f.propertyName && f.propertyName !in Keys(gs0);
      MessagesForAbsent(init, f.propertyName);
    }
  }

  lemma {:induction false} MessagesForAbsent(fs: seq<ValidationFailure>, p: string)
    requires p !in DistinctProperties(fs)
    ensures MessagesFor(fs, p) == []
  {
    if fs != [] {
      assert fs[0].propertyName in DistinctProperties(fs);
      assert forall i :: 0 <= i < |fs[1..]| ==> fs[1..][i] == fs[i + 1];
      assert p !in DistinctProperties(fs[1..]);
      MessagesForAbsent(fs[1..], p);
    }
  }

  // ----- the partition property -----

  function TotalMessages(gs: seq<Group>): nat {
    if gs == [] then 0 else |gs[0].messages| + TotalMessages(gs[1..])
  }

  lemma {:induction false} AddToGroupsAddsOne(gs: seq<Group>, f: ValidationFailure)
    ensures TotalMessages(AddToGroups(gs, f)) == TotalMessages(gs) + 1
  {
    if gs != [] && gs[0].key != f.propertyName {
      AddToGroupsAddsOne(gs[1..], f);
    }
  }

  lemma {:induction false} GroupingKeepsEveryMessage(fs: seq<ValidationFailure>)
    ensures TotalMessages(GroupByProperty(fs)) == |fs|
  {
    if fs != [] {
      GroupingKeepsEveryMessage(fs[..|fs| - 1]);
      AddToGroupsAddsOne(GroupByProperty(fs[..|fs| - 1]), fs[|fs| - 1]);
    }
  }

  lemma {:induction false} TotalReasonsOfGroups(gs: seq<Group>, es: seq<Error>)
    requires |es| == |gs| && forall i :: 0 <= i < |gs| ==> es[i].reasons == gs[i].messages
    ensures TotalReasons(es) == TotalMessages(gs)
  {
    if gs != [] {
      TotalReasonsOfGroups(gs[1..], es[1..]);
    }
  }

  /** Grouping partitions the failures: the errors carry, between them, exactly as many
      reasons as there were failures. */
  lemma FluentErrorsPartition(fs: seq<ValidationFailure>)
    ensures TotalReasons(FluentErrors(fs)) == |fs|
  {
    GroupByPropertyIsReference(fs);
    GroupingKeepsEveryMessage(fs);
    TotalReasonsOfGroups(GroupByProperty(fs), FluentErrors(fs));
  }

  /** Every failing property has an error of its own. */
  lemma FluentErrorsCoverFailures(fs: seq<ValidationFailure>, i: int)
    requires 0 <= i < |fs|
    ensures exists j :: 0 <= j < |FluentErrors(fs)| && FluentErrors(fs)[j] == FieldError(fs[i].propertyName, MessagesFor(fs, fs[i].propertyName))
  {
    var ps := DistinctProperties(fs);
    var j :| 0 <= j < |ps| && ps[j] == fs[i].propertyName;
    assert FluentErrors(fs)[j] == FieldError(fs[i].propertyName, MessagesFor(fs, fs[i].propertyName));
  }

  /** Every error is about a property that failed, and carries that property's
      messages in their original order. */
  lemma FluentErrorsFromFailures(fs: seq<ValidationFailure>, j: int)
    requires 0 <= j < |FluentErrors(fs)|
    ensures exists i :: 0 <= i < |fs| && FluentErrors(fs)[j] == FieldError(fs[i].propertyName, MessagesFor(fs, fs[i].propertyName))
  {
    var ps := DistinctProperties(fs);
    assert ps[j] in ps;
    var i :| 0 <= i < |fs| && fs[i].propertyName == ps[j];
    assert FluentErrors(fs)[j] == FieldError(fs[i].propertyName, MessagesFor(fs, fs[i].propertyName));
  }

  /** No two errors are about the same property. */
  lemma FluentErrorsDistinct(fs: seq<ValidationFailure>, j: int, k: int)
    requires 0 <= j < k < |FluentErrors(fs)|
    ensures FluentErrors(fs)[j].message != FluentErrors(fs)[k].message
  {
    var es, ps := FluentErrors(fs), DistinctProperties(fs);
    var prefix := "Invalid field: ";
    assert es[j].message == prefix + ps[j] && es[k].message == prefix + ps[k];
    assert es[j].message[|prefix|..] == ps[j] && es[k].message[|prefix|..] == ps[k];
  }

  // ----- the extension method -----

  /** `ValidationResult.GetFluentErrors()`: Ok for a valid result; otherwise a failure
      with one error per property, built by the loop over the grouped dictionary. */
  method GetFluentErrors(validationResult: ValidationResult) returns (r: Result<()>)
    ensures validationResult.IsValid() ==> r == Ok(())
    ensures !validationResult.IsValid() ==> r == Fail(FluentErrors(validationResult.errors))
  {
    if validationResult.IsValid() {
      return Ok(());
    }
    var errorsByPropertyName := GroupByProperty(validationResult.errors);
    var errors: seq<Error> := [];
    for i := 0 to |errorsByPropertyName|
      invariant |errors| == i
      invariant forall j :: 0 <= j < i ==>
        errors[j] == FieldError(errorsByPropertyName[j].key, errorsByPropertyName[j].messages)
    {
      var group := errorsByPropertyName[i];
      errors := errors + [FieldError(group.key, group.messages)];
    }
    GroupByPropertyIsReference(validationResult.errors);
    r := Fail(errors);
  }
}
