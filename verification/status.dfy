/** The status values of targets, actions and activities, and the two safelists the
    validators and list filters check against. */
module Status {
  import opened Validator

  const Queued: string := "queued"
  const InProgress: string := "in progress"
  const Completed: string := "completed"
  const Canceled: string := "canceled"
  /** The "any status" filter value; never a valid stored status. */
  const Any: string := ""

  /** The statuses a stored row may carry. */
  const Safelist: seq<string> := [Queued, InProgress, Completed, Canceled]

  /** The statuses a list filter may name: the safelist plus Any. */
  const FilterSafelist: seq<string> := [Queued, InProgress, Completed, Canceled, Any]

  /** Exactly the four named statuses pass the safelist. */
  lemma SafelistMembers(s: string)
    ensures PermittedValue(s, Safelist) <==> s == Queued || s == InProgress || s == Completed || s == Canceled
  {
    assert Safelist[0] == Queued && Safelist[1] == InProgress;
    assert Safelist[2] == Completed && Safelist[3] == Canceled;
  }

  /** The filter safelist admits what the safelist admits, and Any. */
  lemma FilterSafelistExtends(s: string)
    ensures PermittedValue(s, FilterSafelist) <==> PermittedValue(s, Safelist) || s == Any
  {
    SafelistMembers(s);
    assert FilterSafelist[4] == Any;
    assert FilterSafelist[..4] == Safelist;
  }

  /** Any is the empty string and is not a storable status. */
  lemma AnyNotStorable()
    ensures Any == ""
    ensures !PermittedValue(Any, Safelist)
  {
    SafelistMembers(Any);
  }

  /** The five values are pairwise distinct, so a misspelt status such as "complete" or
      "archived" fails the safelist. */
  lemma StatusesDistinct()
    ensures Distinct(FilterSafelist)
    ensures !PermittedValue("complete", Safelist) && !PermittedValue("archived", Safelist)
  {
    SafelistMembers("complete");
    SafelistMembers("archived");
    assert "complete" != Completed by { assert |"complete"| != |Completed|; }
  }
}
