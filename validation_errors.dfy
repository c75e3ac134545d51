/** findFirstConstraint of src/main.ts, the function the global validation
    pipe uses to pick the one message it reports: a depth-first search, in
    order, for the first error node that carries constraint messages. */
module ValidationErrors {
  import opened Common

  /** class-validator's ValidationError, reduced to what the search reads:
      the values of its `constraints` object, in order, and its children.
      A missing `constraints` or `children` is the empty sequence: the
      search treats `undefined` and an empty one alike. */
  datatype ValidationError = ValidationError(constraints: seq<string>, children: seq<ValidationError>)

  /** The node whose children are the given list, so that a list of errors
      and the children of a node are searched by the same function. */
  function Root(errors: seq<ValidationError>): ValidationError {
    ValidationError([], errors)
  }

  /** The `for` loop of the search over the children of `parent`, from the
      child at index `i` on. A message found below a child is only taken when
      it is truthy (`if (msg)`), so an empty one does not stop the loop. */
  function SearchFrom(parent: ValidationError, i: nat): Option<string>
    decreases parent, |parent.children| - i
  {
    if i >= |parent.children| then None
    else
      var e := parent.children[i];
      if |e.constraints| > 0 then Some(e.constraints[0])
      else if |e.children| > 0 then
        var msg := SearchFrom(e, 0);
        if msg.Some? && msg.value != "" then msg else SearchFrom(parent, i + 1)
      else SearchFrom(parent, i + 1)
  }

  /** findFirstConstraint(errors); `None` is the `undefined` it falls off
      with. Any message returned is a constraint message of some node of the
      tree, and with no constraint message anywhere the result is undefined. */
  function FindFirstConstraint(errors: seq<ValidationError>): (r: Option<string>)
    ensures r.Some? ==> r.value in Messages(errors)
    ensures Messages(errors) == {} ==> r == None
  {
    SearchFindsAMessage(Root(errors), 0);
    SearchFrom(Root(errors), 0)
  }

  /** Every constraint message of the children of `parent` from index `i` on
      and of all their descendants. */
  function MessagesFrom(parent: ValidationError, i: nat): set<string>
    decreases parent, |parent.children| - i
  {
    if i >= |parent.children| then {}
    else
      var e := parent.children[i];
      (set m | m in e.constraints) + MessagesFrom(e, 0) + MessagesFrom(parent, i + 1)
  }

  /** All constraint messages of a list of errors and their descendants. */
  function Messages(errors: seq<ValidationError>): set<string> {
    MessagesFrom(Root(errors), 0)
  }

  lemma {:induction false} SearchFindsAMessage(parent: ValidationError, i: nat)
    ensures SearchFrom(parent, i).Some? ==> SearchFrom(parent, i).value in MessagesFrom(parent, i)
    ensures MessagesFrom(parent, i) == {} ==> SearchFrom(parent, i) == None
    decreases parent, |parent.children| - i
  {
    if i < |parent.children| {
      var e := parent.children[i];
      if |e.constraints| > 0 {
        assert e.constraints[0] in e.constraints;
      } else {
        SearchFindsAMessage(e, 0);
        SearchFindsAMessage(parent, i + 1);
      }
    }
  }

  /** Searching `[e] + rest` from index k + 1 is searching `rest` from k. */
  lemma {:induction false} SearchShift(e: ValidationError, rest: seq<ValidationError>, k: nat)
    ensures SearchFrom(Root([e] + rest), k + 1) == SearchFrom(Root(rest), k)
    decreases |rest| - k
  {
    if k < |rest| {
      assert ([e] + rest)[k + 1] == rest[k];
      SearchShift(e, rest, k + 1);
    } else {
      assert |[e] + rest| <= k + 1;
    }
  }

  /** A search only looks at the children of the node it searches. */
  lemma {:induction false} SearchReadsOnlyChildren(p: ValidationError, q: ValidationError, i: nat)
    requires p.children == q.children
    ensures SearchFrom(p, i) == SearchFrom(q, i)
    decreases |p.children| - i
  {
    if i < |p.children| {
      SearchReadsOnlyChildren(p, q, i + 1);
    }
  }

  /** The order of the search. A first node with constraints yields its first
      message and its children are not visited; one without constraints has
      its children searched, and a truthy message found there wins over the
      later siblings; otherwise the search goes on with the later siblings. */
  lemma DepthFirstOrder(e: ValidationError, rest: seq<ValidationError>, otherChildren: seq<ValidationError>)
    ensures |e.constraints| > 0 ==>
              && FindFirstConstraint([e] + rest) == Some(e.constraints[0])
              && FindFirstConstraint([ValidationError(e.constraints, otherChildren)] + rest)
                 == FindFirstConstraint([e] + rest)
    ensures |e.constraints| == 0 ==>
              var below := FindFirstConstraint(e.children);
              FindFirstConstraint([e] + rest) ==
                (if below.Some? && below.value != "" then below else FindFirstConstraint(rest))
  {
    SearchShift(e, rest, 0);
    SearchReadsOnlyChildren(e, Root(e.children), 0);
  }
}
