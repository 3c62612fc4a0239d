/**
 * The request schemas of src/lib/validators/todo.ts.
 *
 * A request body is a JSON object; each field the schema knows is either
 * absent or holds some JSON value.  A schema either rejects the body or
 * yields a typed request.  Numbers are JSON numbers taken as exact reals, so
 * `.int()` and `.positive()` are checks, not types; the rounding of a parsed
 * number to a double is not modelled.
 */
module Validators {
  import opened Common

  datatype Json = JNull | JBool(b: bool) | JNumber(n: real) | JString(s: string) | JComposite

  datatype TaskState = Todo | InProgress | Review | Done

  const TitleMax := 100
  const DescriptionMax := 1000

  function StateName(s: TaskState): string
  {
    match s
    case Todo => "todo"
    case InProgress => "in-progress"
    case Review => "review"
    case Done => "done"
  }

  /** The outcome of checking one field. */
  datatype Parsed<T> = Valid(value: T) | Invalid

  // ---------------------------------------------------------------------
  // Field checks
  // ---------------------------------------------------------------------

  predicate IsInteger(n: real)
  {
    n.Floor as real == n
  }

  /** `z.string().min(1).max(100)`. */
  function ParseTitle(v: Option<Json>): Parsed<string>
  {
    match v
    case Some(JString(s)) => if 1 <= |s| <= TitleMax then Valid(s) else Invalid
    case _ => Invalid
  }

  /** `.optional()` accepts an absent field (not `null`) and otherwise defers to the inner check. */
  function ParseOptional<T>(v: Option<Json>, inner: Option<Json> -> Parsed<T>): Parsed<Option<T>>
  {
    if v.None? then Valid(None)
    else match inner(v)
      case Valid(x) => Valid(Some(x))
      case Invalid => Invalid
  }

  /** `z.string().max(1000)`. */
  function ParseDescription(v: Option<Json>): Parsed<string>
  {
    match v
    case Some(JString(s)) => if |s| <= DescriptionMax then Valid(s) else Invalid
    case _ => Invalid
  }

  /** `z.enum(["todo", "in-progress", "review", "done"])`. */
  function ParseState(v: Option<Json>): Parsed<TaskState>
  {
    match v
    case Some(JString("todo")) => Valid(Todo)
    case Some(JString("in-progress")) => Valid(InProgress)
    case Some(JString("review")) => Valid(Review)
    case Some(JString("done")) => Valid(Done)
    case _ => Invalid
  }

  /** `z.number().int().positive()`. */
  function ParsePositiveInt(v: Option<Json>): Parsed<int>
  {
    match v
    case Some(JNumber(n)) => if IsInteger(n) && n > 0.0 then Valid(n.Floor) else Invalid
    case _ => Invalid
  }

  /** `z.number().int().min(0)`. */
  function ParseNonNegativeInt(v: Option<Json>): Parsed<int>
  {
    match v
    case Some(JNumber(n)) => if IsInteger(n) && n >= 0.0 then Valid(n.Floor) else Invalid
    case _ => Invalid
  }

  /** `z.boolean()`. */
  function ParseBool(v: Option<Json>): Parsed<bool>
  {
    match v
    case Some(JBool(b)) => Valid(b)
    case _ => Invalid
  }

  // ---------------------------------------------------------------------
  // The shared refinement on the two dates
  // ---------------------------------------------------------------------

  /** JavaScript truthiness of an optional number. */
  predicate Truthy(d: Option<int>)
  {
    d.Some? && d.value != 0
  }

  /** The refine callback, clause for clause: a truthy planned finish needs a truthy, later due date. */
  predicate DatesRefine(dueDate: Option<int>, plannedFinishDate: Option<int>): (ok: bool)
    ensures ok <==> (Truthy(plannedFinishDate) ==> Truthy(dueDate) && dueDate.value > plannedFinishDate.value)
  {
    if Truthy(plannedFinishDate) && !Truthy(dueDate) then false
    else if Truthy(dueDate) && Truthy(plannedFinishDate) then dueDate.value > plannedFinishDate.value
    else true
  }

  /** The deadline rule, stated on presence: a planned finish needs a due date, and must come strictly before it. */
  predicate DatesOrdered(dueDate: Option<int>, plannedFinishDate: Option<int>)
  {
    plannedFinishDate.Some? ==> dueDate.Some? && plannedFinishDate.value < dueDate.value
  }

  /** On positive dates (what the field checks let through) the refine callback is exactly the deadline rule. */
  lemma RefineIsDeadlineRule(dueDate: Option<int>, plannedFinishDate: Option<int>)
    requires dueDate.Some? ==> dueDate.value > 0
    requires plannedFinishDate.Some? ==> plannedFinishDate.value > 0
    ensures DatesRefine(dueDate, plannedFinishDate) <==> DatesOrdered(dueDate, plannedFinishDate)
    ensures plannedFinishDate.Some? && dueDate.None? ==> !DatesRefine(dueDate, plannedFinishDate)
    ensures plannedFinishDate.None? ==> DatesRefine(dueDate, plannedFinishDate)
    ensures dueDate.Some? && plannedFinishDate.Some? ==>
      (DatesRefine(dueDate, plannedFinishDate) <==> dueDate.value > plannedFinishDate.value)
  {
  }

  // ---------------------------------------------------------------------
  // TodoCreateValidator
  // ---------------------------------------------------------------------

  datatype CreateBody = CreateBody(title: Option<Json>, description: Option<Json>, state: Option<Json>,
                                   dueDate: Option<Json>, plannedFinishDate: Option<Json>)

  datatype TodoCreate = TodoCreate(title: string, description: Option<string>, state: TaskState,
                                   dueDate: Option<int>, plannedFinishDate: Option<int>)

  /** The Task invariant a create request must carry. */
  predicate WellFormedCreate(r: TodoCreate)
  {
    && 1 <= |r.title| <= TitleMax
    && (r.description.Some? ==> |r.description.value| <= DescriptionMax)
    && (r.dueDate.Some? ==> r.dueDate.value > 0)
    && (r.plannedFinishDate.Some? ==> r.plannedFinishDate.value > 0)
    && DatesOrdered(r.dueDate, r.plannedFinishDate)
  }

  function StringField(s: Option<string>): Option<Json>
  {
    match s
    case None => None
    case Some(x) => Some(JString(x))
  }

  function NumberField(d: Option<int>): Option<Json>
  {
    match d
    case None => None
    case Some(n) => Some(JNumber(n as real))
  }

  /** The body a client sends for a typed create request. */
  function CreateToBody(r: TodoCreate): CreateBody
  {
    CreateBody(Some(JString(r.title)), StringField(r.description), Some(JString(StateName(r.state))),
               NumberField(r.dueDate), NumberField(r.plannedFinishDate))
  }

  /** `TodoCreateValidator.parse`: title and state are required, and what it accepts is well formed. */
  function ParseCreate(b: CreateBody): (r: Parsed<TodoCreate>)
    ensures b.title.None? || b.state.None? ==> r.Invalid?
    ensures r.Valid? ==> WellFormedCreate(r.value)
  {
    var title := ParseTitle(b.title);
    var description := ParseOptional(b.description, ParseDescription);
    var state := ParseState(b.state);
    var dueDate := ParseOptional(b.dueDate, ParsePositiveInt);
    var plannedFinishDate := ParseOptional(b.plannedFinishDate, ParsePositiveInt);
    if title.Invalid? || description.Invalid? || state.Invalid? || dueDate.Invalid? || plannedFinishDate.Invalid? then Invalid
    else if !DatesRefine(dueDate.value, plannedFinishDate.value) then Invalid
    else Valid(TodoCreate(title.value, description.value, state.value, dueDate.value, plannedFinishDate.value))
  }

  /** Every accepted create body is well formed and is the encoding of what it parsed to. */
  lemma ParseCreateSound(b: CreateBody)
    requires ParseCreate(b).Valid?
    ensures WellFormedCreate(ParseCreate(b).value)
    ensures CreateToBody(ParseCreate(b).value) == b
  {
  }

  /** The encoding of a typed request is accepted, and parses back to it, exactly when it is well formed. */
  lemma CreateRoundTrip(r: TodoCreate)
    ensures ParseCreate(CreateToBody(r)).Valid? <==> WellFormedCreate(r)
    ensures WellFormedCreate(r) ==> ParseCreate(CreateToBody(r)) == Valid(r)
  {
  }

  // ---------------------------------------------------------------------
  // TodoEditValidator
  // ---------------------------------------------------------------------

  /** `id` is `z.custom<ObjectId>()` with no check: any value, or none, passes through. */
  datatype EditBody = EditBody(id: Option<Json>, title: Option<Json>, description: Option<Json>, state: Option<Json>,
                               dueDate: Option<Json>, plannedFinishDate: Option<Json>, order: Option<Json>)

  datatype TodoEdit = TodoEdit(id: Option<Json>, title: Option<string>, description: Option<string>, state: TaskState,
                               dueDate: Option<int>, plannedFinishDate: Option<int>, order: Option<int>)

  predicate WellFormedEdit(r: TodoEdit)
  {
    && (r.title.Some? ==> 1 <= |r.title.value| <= TitleMax)
    && (r.description.Some? ==> |r.description.value| <= DescriptionMax)
    && (r.dueDate.Some? ==> r.dueDate.value > 0)
    && (r.plannedFinishDate.Some? ==> r.plannedFinishDate.value > 0)
    && (r.order.Some? ==> r.order.value >= 0)
    && DatesOrdered(r.dueDate, r.plannedFinishDate)
  }

  function EditToBody(r: TodoEdit): EditBody
  {
    EditBody(r.id, StringField(r.title), StringField(r.description), Some(JString(StateName(r.state))),
             NumberField(r.dueDate), NumberField(r.plannedFinishDate), NumberField(r.order))
  }

  /** `TodoEditValidator.parse`: state is required, the id passes through, and what it accepts is well formed. */
  function ParseEdit(b: EditBody): (r: Parsed<TodoEdit>)
    ensures b.state.None? ==> r.Invalid?
    ensures r.Valid? ==> WellFormedEdit(r.value) && r.value.id == b.id
  {
    var title := ParseOptional(b.title, ParseTitle);
    var description := ParseOptional(b.description, ParseDescription);
    var state := ParseState(b.state);
    var dueDate := ParseOptional(b.dueDate, ParsePositiveInt);
    var plannedFinishDate := ParseOptional(b.plannedFinishDate, ParsePositiveInt);
    var order := ParseOptional(b.order, ParseNonNegativeInt);
    if title.Invalid? || description.Invalid? || state.Invalid? || dueDate.Invalid? || plannedFinishDate.Invalid? || order.Invalid? then Invalid
    else if !DatesRefine(dueDate.value, plannedFinishDate.value) then Invalid
    else Valid(TodoEdit(b.id, title.value, description.value, state.value, dueDate.value, plannedFinishDate.value, order.value))
  }

  /** Every accepted edit body is well formed and is the encoding of what it parsed to. */
  lemma ParseEditSound(b: EditBody)
    requires ParseEdit(b).Valid?
    ensures WellFormedEdit(ParseEdit(b).value)
    ensures EditToBody(ParseEdit(b).value) == b
  {
  }

  /** The encoding of a typed edit request is accepted, and parses back to it, exactly when it is well formed. */
  lemma EditRoundTrip(r: TodoEdit)
    ensures ParseEdit(EditToBody(r)).Valid? <==> WellFormedEdit(r)
    ensures WellFormedEdit(r) ==> ParseEdit(EditToBody(r)) == Valid(r)
  {
  }

  // ---------------------------------------------------------------------
  // TodoCheckValidator
  // ---------------------------------------------------------------------

  datatype CheckBody = CheckBody(id: Option<Json>, checked: Option<Json>)

  datatype TodoCheck = TodoCheck(id: Option<Json>, checked: bool)

  /** Any id passes; `checked` must be a JSON boolean. */
  function ParseCheck(b: CheckBody): (r: Parsed<TodoCheck>)
    ensures r.Valid? <==> b.checked.Some? && b.checked.value.JBool?
    ensures r.Valid? ==> r.value.id == b.id && b.checked == Some(JBool(r.value.checked))
  {
    match ParseBool(b.checked)
    case Valid(c) => Valid(TodoCheck(b.id, c))
    case Invalid => Invalid
  }

  // ---------------------------------------------------------------------
  // Worked examples on the two dates
  // ---------------------------------------------------------------------

  /** Due 100 with planned finish 200 is rejected; planned 50 alone is rejected; due 200 with planned 100 is accepted. */
  lemma DateExamples(title: string, state: TaskState)
    requires 1 <= |title| <= TitleMax
    ensures ParseCreate(CreateToBody(TodoCreate(title, None, state, Some(100), Some(200)))).Invalid?
    ensures ParseCreate(CreateToBody(TodoCreate(title, None, state, None, Some(50)))).Invalid?
    ensures ParseCreate(CreateToBody(TodoCreate(title, None, state, Some(200), Some(100)))) ==
            Valid(TodoCreate(title, None, state, Some(200), Some(100)))
    ensures ParseCreate(CreateToBody(TodoCreate(title, None, state, Some(150), Some(150)))).Invalid?
  {
  }
}
