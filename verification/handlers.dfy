/** The five route handlers of the todo server (todoServer.js:58-118), each a pure
    transition from the collection and the request to the next collection, the
    HTTP status and the response body. */
module Handlers {
  import opened Wrappers
  import opened Todos

  const StatusOk: int := 200
  const StatusCreated: int := 201
  const StatusNotFound: int := 404

  /** What a handler sends: nothing (`res.send()`), one record, or the collection. */
  datatype Body = NoBody | Item(todo: Todo) | Items(todos: seq<Todo>)

  datatype Outcome = Outcome(todos: seq<Todo>, status: int, body: Body)

  /** The two fields the handlers read from the decoded JSON request body. */
  datatype Payload = Payload(title: Option<string>, description: Option<string>)

  /** The values `Math.round(Math.random() * 1000)` can produce. */
  type DrawnId = x: int | 0 <= x <= 1000

  /** A routed request. `key` is the parsed `:id` path segment; `drawn` is the
      random number the create handler draws for the new id. */
  datatype Request =
    | ListTodos
    | GetTodo(key: Option<int>)
    | CreateTodo(payload: Payload, drawn: DrawnId)
    | UpdateTodo(key: Option<int>, payload: Payload)
    | DeleteTodo(key: Option<int>)

  /** Requests that look a record up by its id. */
  predicate IsKeyed(req: Request) {
    req.GetTodo? || req.UpdateTodo? || req.DeleteTodo?
  }

  /** GET /todos. */
  function List(todos: seq<Todo>): (o: Outcome)
    ensures o.todos == todos && o.status == StatusOk
    ensures o.body.Items? && o.body.todos == todos
  {
    Outcome(todos, StatusOk, Items(todos))
  }

  /** GET /todos/:id. */
  function Get(todos: seq<Todo>, key: Option<int>): (o: Outcome)
    ensures o.todos == todos
    ensures o.status == StatusNotFound <==> NoMatch(todos, key)
    ensures NoMatch(todos, key) ==> o.body == NoBody
    ensures !NoMatch(todos, key) ==> o.status == StatusOk
    ensures forall i :: IsFirstMatch(todos, key, i) ==> o.body == Item(todos[i])
  {
    var i := FindIndex(todos, key);
    if i == -1 then Outcome(todos, StatusNotFound, NoBody)
    else Outcome(todos, StatusOk, Item(todos[i]))
  }

  /** POST /todos with the id `newId`. The new record goes to the end; the reply
      is the whole collection, not the new id. Nothing checks that `newId` is
      unused. */
  function Create(todos: seq<Todo>, p: Payload, newId: int): (o: Outcome)
    ensures |o.todos| == |todos| + 1
    ensures o.todos[..|todos|] == todos
    ensures o.todos[|todos|] == Todo(newId, p.title, p.description)
    ensures o.status == StatusCreated && o.body == Items(o.todos)
  {
    var t := Todo(newId, p.title, p.description);
    var next := todos + [t];
    Outcome(next, StatusCreated, Items(next))
  }

  /** PUT /todos/:id. Both text fields of the first matching record are
      overwritten, with `None` when the body lacks them; nothing else changes. */
  function Update(todos: seq<Todo>, key: Option<int>, p: Payload): (o: Outcome)
    ensures o.status == StatusNotFound <==> NoMatch(todos, key)
    ensures NoMatch(todos, key) ==> o.todos == todos && o.body == NoBody
    ensures !NoMatch(todos, key) ==> o.status == StatusOk && |o.todos| == |todos|
    ensures forall i :: IsFirstMatch(todos, key, i) ==>
      && o.todos[i] == Todo(todos[i].id, p.title, p.description)
      && o.body == Item(o.todos[i])
      && (forall j :: 0 <= j < |todos| && j != i ==> o.todos[j] == todos[j])
  {
    var i := FindIndex(todos, key);
    if i == -1 then Outcome(todos, StatusNotFound, NoBody)
    else
      var t := todos[i].(title := p.title, description := p.description);
      var next := todos[i := t];
      Outcome(next, StatusOk, Item(t))
  }

  /** DELETE /todos/:id. Only the first matching record goes; others with the same
      id stay. The reply has no body either way. */
  function Delete(todos: seq<Todo>, key: Option<int>): (o: Outcome)
    ensures o.status == StatusNotFound <==> NoMatch(todos, key)
    ensures o.body == NoBody
    ensures NoMatch(todos, key) ==> o.todos == todos
    ensures !NoMatch(todos, key) ==> o.status == StatusOk && |o.todos| == |todos| - 1
    ensures forall i :: IsFirstMatch(todos, key, i) ==> o.todos == todos[..i] + todos[i + 1..]
  {
    var i := FindIndex(todos, key);
    if i == -1 then Outcome(todos, StatusNotFound, NoBody)
    else Outcome(RemoveAtIndex(todos, i), StatusOk, NoBody)
  }

  /** The route table: one request against the collection. */
  function Handle(todos: seq<Todo>, req: Request): (o: Outcome)
    ensures IsKeyed(req) && NoMatch(todos, req.key) ==>
      o == Outcome(todos, StatusNotFound, NoBody)
    ensures req.ListTodos? || req.GetTodo? ==> o.todos == todos
    ensures req.CreateTodo? ==> o.status == StatusCreated
  {
    match req
    case ListTodos => List(todos)
    case GetTodo(key) => Get(todos, key)
    case CreateTodo(p, drawn) => Create(todos, p, drawn)
    case UpdateTodo(key, p) => Update(todos, key, p)
    case DeleteTodo(key) => Delete(todos, key)
  }
}
