/** The todo record and the two array helpers of the server:
    `findIndex` (todoServer.js:124-131) and `removeAtIndex` (todoServer.js:133-139). */
module Todos {
  import opened Wrappers

  /** A stored todo. The server builds it from the request body without any
      validation, so either text field may be absent. There is no `completed`
      field: the server never stores one. */
  datatype Todo = Todo(id: int, title: Option<string>, description: Option<string>)

  /** The test `arr[i].id === id` of findIndex. The key is what `parseInt` made of
      the path segment; `None` stands for `NaN`, which is strictly equal to nothing. */
  predicate Matches(t: Todo, key: Option<int>) {
    key.Some? && t.id == key.value
  }

  /** No record of the collection carries the key. */
  predicate NoMatch(todos: seq<Todo>, key: Option<int>) {
    forall j :: 0 <= j < |todos| ==> !Matches(todos[j], key)
  }

  /** `i` is the position of the first record carrying the key. Ids need not be
      unique, so later records may carry it too. */
  predicate IsFirstMatch(todos: seq<Todo>, key: Option<int>, i: int) {
    0 <= i < |todos| && Matches(todos[i], key) &&
    forall j :: 0 <= j < i ==> !Matches(todos[j], key)
  }

  /** The first match is determined by the collection and the key. */
  lemma FirstMatchUnique(todos: seq<Todo>, key: Option<int>, i: int, k: int)
    requires IsFirstMatch(todos, key, i) && IsFirstMatch(todos, key, k)
    ensures i == k
  {
  }

  /** Scan from position `i` onwards. */
  function FindFrom(todos: seq<Todo>, key: Option<int>, i: nat): (r: int)
    requires i <= |todos|
    ensures r == -1 <==> forall j :: i <= j < |todos| ==> !Matches(todos[j], key)
    ensures r != -1 ==> i <= r < |todos| && Matches(todos[r], key)
    ensures r != -1 ==> forall j :: i <= j < r ==> !Matches(todos[j], key)
    decreases |todos| - i
  {
    if i == |todos| then -1
    else if Matches(todos[i], key) then i
    else FindFrom(todos, key, i + 1)
  }

  /** findIndex: -1 exactly when no record carries the key, otherwise the
      position of the first record that does. */
  function FindIndex(todos: seq<Todo>, key: Option<int>): (r: int)
    ensures r == -1 <==> NoMatch(todos, key)
    ensures r != -1 ==> IsFirstMatch(todos, key, r)
  {
    FindFrom(todos, key, 0)
  }

  /** findIndex as the server writes it: a forward loop with an early return. */
  method FindIndexLoop(todos: seq<Todo>, key: Option<int>) returns (r: int)
    ensures r == -1 <==> NoMatch(todos, key)
    ensures r != -1 ==> IsFirstMatch(todos, key, r)
    ensures r == FindIndex(todos, key)
  {
    var i := 0;
    while i < |todos|
      invariant 0 <= i <= |todos|
      invariant forall j :: 0 <= j < i ==> !Matches(todos[j], key)
    {
      if Matches(todos[i], key) {
        return i;
      }
      i := i + 1;
    }
    return -1;
  }

  /** removeAtIndex: every element except the one at `index`, in the original
      order. An index outside the array removes nothing. */
  function RemoveAtIndex<T>(arr: seq<T>, index: int): (r: seq<T>)
    ensures 0 <= index < |arr| ==> r == arr[..index] + arr[index + 1..]
    ensures 0 <= index < |arr| ==> |r| == |arr| - 1
    ensures !(0 <= index < |arr|) ==> r == arr
    decreases |arr|
  {
    if |arr| == 0 then []
    else
      var rest := RemoveAtIndex(arr[1..], index - 1);
      if index == 0 then rest
      else
        assert 0 <= index - 1 < |arr[1..]| ==>
          [arr[0]] + rest == arr[..index] + arr[index + 1..];
        assert !(0 <= index < |arr|) ==> [arr[0]] + rest == arr;
        [arr[0]] + rest
  }

  /** removeAtIndex as the server writes it: push every element whose position
      differs from `index`. */
  method RemoveAtIndexLoop<T>(arr: seq<T>, index: int) returns (r: seq<T>)
    ensures 0 <= index < |arr| ==> r == arr[..index] + arr[index + 1..]
    ensures !(0 <= index < |arr|) ==> r == arr
    ensures r == RemoveAtIndex(arr, index)
  {
    r := [];
    var i := 0;
    while i < |arr|
      invariant 0 <= i <= |arr|
      invariant 0 <= index < i ==> r == arr[..index] + arr[index + 1..i]
      invariant !(0 <= index < i) ==> r == arr[..i]
    {
      if i != index {
        if 0 <= index < i {
          assert arr[index + 1..i + 1] == arr[index + 1..i] + [arr[i]];
        } else {
          assert arr[..i + 1] == arr[..i] + [arr[i]];
        }
        r := r + [arr[i]];
      } else {
        assert arr[index + 1..i + 1] == [];
      }
      i := i + 1;
    }
    assert arr[..|arr|] == arr;
  }
}
