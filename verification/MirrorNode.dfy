/** Polling the mirror node for the outcome of a submitted transaction: the loop ends with at
    most one of the two callbacks. */
module MirrorNode {
  import opened Wrappers

  datatype Transaction = Transaction(scheduled: bool, result: string)

  const SUCCESS := "SUCCESS"

  /** One answer to the query for a transaction id. */
  datatype Answer = NotFound | QueryError | Transactions(list: seq<Transaction>)

  /** An ordinary transaction is decided by any entry, a scheduled one once the creating and
      the scheduled transaction are both there. */
  predicate Decides(a: Answer, scheduled: bool) {
    a.Transactions? && |a.list| > if scheduled then 1 else 0
  }

  predicate Succeeded(t: Transaction, scheduled: bool) {
    t.result == SUCCESS && (scheduled ==> t.scheduled)
  }

  /** The first answer that ends the loop. */
  predicate Ends(answers: seq<Answer>, k: nat, scheduled: bool) {
    && k < |answers| && (answers[k].QueryError? || Decides(answers[k], scheduled))
    && forall i :: 0 <= i < k ==> !answers[i].QueryError? && !Decides(answers[i], scheduled)
  }

  /** The search for a successful entry. */
  method AnySuccess(list: seq<Transaction>, scheduled: bool) returns (success: bool)
    ensures success <==> exists t :: t in list && Succeeded(t, scheduled)
    ensures success <==> exists t :: t in list && t.result == "SUCCESS" && (scheduled ==> t.scheduled)
  {
    for i := 0 to |list|
      invariant forall t :: t in list[..i] ==> !Succeeded(t, scheduled)
    {
      if Succeeded(list[i], scheduled) {
        return true;
      }
    }
    return false;
  }

  /** Polls until an answer ends the loop. The success callback fires if that answer lists a
      successful (and, for a schedule, scheduled) transaction, the failure callback if it
      lists none, and neither if it is an error or no answer has ended the loop yet. */
  method WaitForTransaction(answers: seq<Answer>, scheduled: bool) returns (fired: Option<bool>)
    ensures fired.Some? <==> exists k: nat :: Ends(answers, k, scheduled) && !answers[k].QueryError?
    ensures forall k: nat :: Ends(answers, k, scheduled) && answers[k].Transactions? ==>
              fired == Some(exists t :: t in answers[k].list && Succeeded(t, scheduled))
    ensures forall k :: 0 <= k < |answers|
                        && answers[k].Transactions? && |answers[k].list| > (if scheduled then 1 else 0)
                        && (forall i :: 0 <= i < k ==>
                              answers[i].NotFound?
                              || (answers[i].Transactions? && |answers[i].list| <= if scheduled then 1 else 0)) ==>
              fired == Some(exists t :: t in answers[k].list && t.result == "SUCCESS" && (scheduled ==> t.scheduled))
  {
    for k := 0 to |answers|
      invariant forall i :: 0 <= i < k ==> !answers[i].QueryError? && !Decides(answers[i], scheduled)
    {
      match answers[k] {
        case NotFound => continue;
        case QueryError =>
          assert forall l: nat :: Ends(answers, l, scheduled) ==> l == k;
          return None;
        case Transactions(list) =>
          if |list| > if scheduled then 1 else 0 {
            assert Ends(answers, k, scheduled);
            assert forall l: nat :: Ends(answers, l, scheduled) ==> l == k;
            var success := AnySuccess(list, scheduled);
            return Some(success);
          }
      }
    }
    return None;
  }
}
