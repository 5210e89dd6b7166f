/** Id uniqueness. The server's header asks for a unique id per created todo
    (todoServer.js:7), but the create handler draws `Math.round(Math.random() * 1000)`
    (todoServer.js:80) without checking it against the ids in use. This module
    shows what the drawn id allows, and proves a collision-free create that
    takes one more than the largest id in use. */
module FreshIds {
  import opened Wrappers
  import opened Todos
  import opened Handlers
  import StoreProperties

  /** No two records share an id. */
  predicate UniqueIds(todos: seq<Todo>) {
    forall i, j :: 0 <= i < j < |todos| ==> todos[i].id != todos[j].id
  }

  /** POST with a given id keeps ids unique exactly when that id was unused. */
  lemma CreateKeepsUniqueIds(todos: seq<Todo>, p: Payload, r: int)
    ensures UniqueIds(todos) ==>
      (UniqueIds(Create(todos, p, r).todos) <==> NoMatch(todos, Some(r)))
  {
    var next := Create(todos, p, r).todos;
    assert forall j :: 0 <= j < |todos| ==> next[j] == todos[j] by {
      forall j | 0 <= j < |todos| ensures next[j] == todos[j] {
        assert next[..|todos|][j] == todos[j];
      }
    }
    if !NoMatch(todos, Some(r)) {
      var i := FindIndex(todos, Some(r));
      assert next[i].id == next[|todos|].id;
    }
  }

  /** The collision the drawn id allows. A collection holding id 7 receives a
      POST whose draw is 7: afterwards two records share the id, and GET on 7
      still answers with the older record, not the one just created. */
  lemma DrawnIdCollision()
    ensures var todos := [Todo(7, Some("old"), None)];
            var o := Handle(todos, CreateTodo(Payload(Some("new"), None), 7));
            && o.status == StatusCreated
            && !UniqueIds(o.todos)
            && Get(o.todos, Some(7)).body == Item(Todo(7, Some("old"), None))
            && Get(o.todos, Some(7)).body != Item(Todo(7, Some("new"), None))
  {
    var todos := [Todo(7, Some("old"), None)];
    var o := Create(todos, Payload(Some("new"), None), 7);
    assert o.todos[0].id == o.todos[1].id;
    assert IsFirstMatch(o.todos, Some(7), 0);
  }

  /** PUT keeps every id in place, so it keeps them unique. */
  lemma UpdateKeepsUniqueIds(todos: seq<Todo>, key: Option<int>, p: Payload)
    ensures UniqueIds(todos) ==> UniqueIds(Update(todos, key, p).todos)
  {
    var o := Update(todos, key, p);
    if !NoMatch(todos, key) {
      var i := FindIndex(todos, key);
      assert forall j :: 0 <= j < |todos| ==> o.todos[j].id == todos[j].id by {
        forall j | 0 <= j < |todos| ensures o.todos[j].id == todos[j].id {
          if j != i {
            assert o.todos[j] == todos[j];
          }
        }
      }
    }
  }

  /** DELETE removes a record and shifts the rest down, so it keeps ids unique;
      with unique ids the deleted id is gone afterwards. */
  lemma DeleteKeepsUniqueIds(todos: seq<Todo>, key: Option<int>)
    ensures UniqueIds(todos) ==> UniqueIds(Delete(todos, key).todos)
    ensures UniqueIds(todos) ==> NoMatch(Delete(todos, key).todos, key)
  {
    if !NoMatch(todos, key) {
      var i := FindIndex(todos, key);
      var rest := Delete(todos, key).todos;
      assert rest == todos[..i] + todos[i + 1..];
      assert forall j :: 0 <= j < |rest| ==> rest[j] == todos[if j < i then j else j + 1];
    }
  }

  /** The collision-free id: greater than every id in use. */
  function NextId(todos: seq<Todo>): (r: int)
    ensures r >= 0
    ensures forall j :: 0 <= j < |todos| ==> todos[j].id < r
    decreases |todos|
  {
    if |todos| == 0 then 0
    else
      var m := NextId(todos[..|todos| - 1]);
      var last := todos[|todos| - 1].id;
      if last + 1 > m then last + 1 else m
  }

  /** POST with the collision-free id in place of the drawn one: it keeps ids
      unique, and GET on the new id finds the new record. */
  function CreateFresh(todos: seq<Todo>, p: Payload): (o: Outcome)
    ensures NoMatch(todos, Some(NextId(todos)))
    ensures UniqueIds(todos) ==> UniqueIds(o.todos)
    ensures Get(o.todos, Some(NextId(todos))).body == Item(Todo(NextId(todos), p.title, p.description))
    ensures o.status == StatusCreated && |o.todos| == |todos| + 1 && o.todos[..|todos|] == todos
  {
    var r := NextId(todos);
    CreateKeepsUniqueIds(todos, p, r);
    StoreProperties.CreateThenGet(todos, p, r);
    Create(todos, p, r)
  }

  /** The route table with the collision-free create; every other request is
      served as before. */
  function HandleFresh(todos: seq<Todo>, req: Request): (o: Outcome)
    ensures UniqueIds(todos) ==> UniqueIds(o.todos)
    ensures !req.CreateTodo? ==> o == Handle(todos, req)
  {
    match req
    case CreateTodo(p, _) => CreateFresh(todos, p)
    case UpdateTodo(key, p) =>
      UpdateKeepsUniqueIds(todos, key, p);
      Update(todos, key, p)
    case DeleteTodo(key) =>
      DeleteKeepsUniqueIds(todos, key);
      Delete(todos, key)
    case _ => Handle(todos, req)
  }

  /** The collection after serving the requests in order. */
  function ServeFresh(todos: seq<Todo>, reqs: seq<Request>): seq<Todo>
    decreases |reqs|
  {
    if |reqs| == 0 then todos
    else ServeFresh(HandleFresh(todos, reqs[0]).todos, reqs[1..])
  }

  /** From any collection with unique ids, in particular the empty one the
      server starts with (todoServer.js:54), every sequence of requests served
      with the collision-free create leaves ids unique. */
  lemma {:induction false} ServeFreshKeepsUniqueIds(todos: seq<Todo>, reqs: seq<Request>)
    requires UniqueIds(todos)
    ensures UniqueIds(ServeFresh(todos, reqs))
    decreases |reqs|
  {
    if |reqs| > 0 {
      ServeFreshKeepsUniqueIds(HandleFresh(todos, reqs[0]).todos, reqs[1..]);
    }
  }
}
