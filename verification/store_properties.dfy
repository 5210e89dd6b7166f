/** Properties that relate several handler calls, all stated for collections in
    which ids may repeat. */
module StoreProperties {
  import opened Wrappers
  import opened Todos
  import opened Handlers

  /** How many records carry the key. */
  function CountMatches(todos: seq<Todo>, key: Option<int>): nat
  {
    if |todos| == 0 then 0
    else (if Matches(todos[0], key) then 1 else 0) + CountMatches(todos[1..], key)
  }

  lemma {:induction false} CountMatchesConcat(a: seq<Todo>, b: seq<Todo>, key: Option<int>)
    ensures CountMatches(a + b, key) == CountMatches(a, key) + CountMatches(b, key)
    decreases |a|
  {
    if |a| == 0 {
      assert a + b == b;
    } else {
      assert (a + b)[1..] == a[1..] + b;
      CountMatchesConcat(a[1..], b, key);
    }
  }

  /** A path id that `parseInt` could not read never finds a record, so every
      keyed request answers 404 with no body and leaves the collection alone. */
  lemma UnparseableIdIsNotFound(todos: seq<Todo>, req: Request)
    requires IsKeyed(req) && req.key.None?
    ensures Handle(todos, req) == Outcome(todos, StatusNotFound, NoBody)
  {
  }

  /** Two collections whose ids agree position by position answer every lookup
      alike. */
  lemma SameIdsSameLookup(a: seq<Todo>, b: seq<Todo>, key: Option<int>)
    requires |a| == |b|
    requires forall j :: 0 <= j < |a| ==> a[j].id == b[j].id
    ensures FindIndex(a, key) == FindIndex(b, key)
  {
    var i, k := FindIndex(a, key), FindIndex(b, key);
    if i != -1 {
      assert IsFirstMatch(b, key, i);
      FirstMatchUnique(b, key, i, k);
    }
  }

  /** PUT never touches an id, so after it every key finds the same position as
      before. */
  lemma UpdatePreservesLookup(todos: seq<Todo>, key: Option<int>, p: Payload, other: Option<int>)
    ensures FindIndex(Update(todos, key, p).todos, other) == FindIndex(todos, other)
  {
    var o := Update(todos, key, p);
    if !NoMatch(todos, key) {
      var i := FindIndex(todos, key);
      assert forall j :: 0 <= j < |todos| ==> o.todos[j].id == todos[j].id by {
        forall j | 0 <= j < |todos| ensures o.todos[j].id == todos[j].id {
          if j != i {
            assert o.todos[j] == todos[j];
          }
        }
      }
      SameIdsSameLookup(o.todos, todos, other);
    }
  }

  /** Repeating the same PUT changes nothing more: same collection, same reply. */
  lemma UpdateIdempotent(todos: seq<Todo>, key: Option<int>, p: Payload)
    ensures Update(Update(todos, key, p).todos, key, p) == Update(todos, key, p)
  {
    var o := Update(todos, key, p);
    UpdatePreservesLookup(todos, key, p, key);
    if !NoMatch(todos, key) {
      var i := FindIndex(todos, key);
      var o2 := Update(o.todos, key, p);
      assert IsFirstMatch(o.todos, key, i);
      assert o2.todos == o.todos;
    }
  }

  /** After a PUT on a found id, GET on that id shows the new text fields under
      the unchanged id. */
  lemma UpdateThenGet(todos: seq<Todo>, id: int, p: Payload)
    requires !NoMatch(todos, Some(id))
    ensures Get(Update(todos, Some(id), p).todos, Some(id)).body
         == Item(Todo(id, p.title, p.description))
  {
    var o := Update(todos, Some(id), p);
    UpdatePreservesLookup(todos, Some(id), p, Some(id));
    var i := FindIndex(todos, Some(id));
    assert IsFirstMatch(o.todos, Some(id), i);
  }

  /** GET after POST: the new record is found under its id exactly when no
      earlier record had that id; otherwise the earlier record shadows it and
      GET answers as it did before the POST. */
  lemma CreateThenGet(todos: seq<Todo>, p: Payload, r: int)
    ensures FindIndex(Create(todos, p, r).todos, Some(r)) == |todos| <==> NoMatch(todos, Some(r))
    ensures NoMatch(todos, Some(r)) ==>
      Get(Create(todos, p, r).todos, Some(r)).body == Item(Todo(r, p.title, p.description))
    ensures !NoMatch(todos, Some(r)) ==>
      Get(Create(todos, p, r).todos, Some(r)).body == Get(todos, Some(r)).body
  {
    var next := Create(todos, p, r).todos;
    assert forall j :: 0 <= j < |todos| ==> next[j] == todos[j] by {
      forall j | 0 <= j < |todos| ensures next[j] == todos[j] {
        assert next[..|todos|][j] == todos[j];
      }
    }
    if NoMatch(todos, Some(r)) {
      assert IsFirstMatch(next, Some(r), |todos|);
      FirstMatchUnique(next, Some(r), |todos|, FindIndex(next, Some(r)));
    } else {
      var i := FindIndex(todos, Some(r));
      assert IsFirstMatch(next, Some(r), i);
      FirstMatchUnique(next, Some(r), i, FindIndex(next, Some(r)));
    }
  }

  /** DELETE undoes POST when the drawn id was not in use before. */
  lemma CreateThenDelete(todos: seq<Todo>, p: Payload, r: int)
    requires NoMatch(todos, Some(r))
    ensures Delete(Create(todos, p, r).todos, Some(r)).todos == todos
    ensures Delete(Create(todos, p, r).todos, Some(r)).status == StatusOk
  {
    var next := Create(todos, p, r).todos;
    CreateThenGet(todos, p, r);
    assert IsFirstMatch(next, Some(r), |todos|);
    assert next[..|todos|] + next[|todos| + 1..] == todos;
  }

  /** DELETE on a found id removes one record carrying it, no more: the count of
      records with that id drops by one, every other id keeps its count, and the
      remaining records are the old ones less one copy of the removed record. */
  lemma DeleteRemovesOneRecord(todos: seq<Todo>, key: Option<int>, other: Option<int>)
    requires !NoMatch(todos, key)
    ensures CountMatches(Delete(todos, key).todos, key) == CountMatches(todos, key) - 1
    ensures multiset(Delete(todos, key).todos) + multiset{todos[FindIndex(todos, key)]}
         == multiset(todos)
    ensures !Matches(todos[FindIndex(todos, key)], other) ==>
      CountMatches(Delete(todos, key).todos, other) == CountMatches(todos, other)
  {
    var i := FindIndex(todos, key);
    var rest := Delete(todos, key).todos;
    assert rest == todos[..i] + todos[i + 1..];
    assert todos == todos[..i] + [todos[i]] + todos[i + 1..];
    CountMatchesConcat(todos[..i] + [todos[i]], todos[i + 1..], key);
    CountMatchesConcat(todos[..i], [todos[i]], key);
    CountMatchesConcat(todos[..i], todos[i + 1..], key);
    CountMatchesConcat(todos[..i] + [todos[i]], todos[i + 1..], other);
    CountMatchesConcat(todos[..i], [todos[i]], other);
    CountMatchesConcat(todos[..i], todos[i + 1..], other);
    assert [todos[i]][1..] == [];
  }

  /** The walk through one todo's life that the server's header describes:
      create, read, update, delete, then read again. It holds whenever the drawn
      id was not already in use. */
  lemma Lifecycle(todos: seq<Todo>, p: Payload, q: Payload, r: DrawnId)
    requires NoMatch(todos, Some(r))
    ensures var s1 := Handle(todos, CreateTodo(p, r));
            var s2 := Handle(s1.todos, GetTodo(Some(r)));
            var s3 := Handle(s2.todos, UpdateTodo(Some(r), q));
            var s4 := Handle(s3.todos, DeleteTodo(Some(r)));
            var s5 := Handle(s4.todos, GetTodo(Some(r)));
            && s1.status == StatusCreated
            && s2.status == StatusOk && s2.body == Item(Todo(r, p.title, p.description))
            && s3.status == StatusOk && s3.body == Item(Todo(r, q.title, q.description))
            && s4.status == StatusOk && s4.todos == todos
            && s5 == Outcome(todos, StatusNotFound, NoBody)
  {
    var s1 := Create(todos, p, r);
    CreateThenGet(todos, p, r);
    var s3 := Update(s1.todos, Some(r), q);
    UpdatePreservesLookup(s1.todos, Some(r), q, Some(r));
    var s4 := Delete(s3.todos, Some(r));
    assert IsFirstMatch(s3.todos, Some(r), |todos|);
    assert s3.todos == todos + [Todo(r, q.title, q.description)];
    CreateThenDelete(todos, q, r);
  }
}
