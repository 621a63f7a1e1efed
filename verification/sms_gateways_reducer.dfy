/**
 * The SMS-gateway slice of the web client's Redux store and its reducer.
 * `Row` is the type of one gateway in the list, `Form` the type of the
 * gateway being edited; the reducer never looks inside either.
 */
module SmsGatewaysReducer {
  import opened Wrappers

  /**
   * The slice. `formData` is `None` for `null`; `formError` is `None` until a
   * create fails. `listRemoving` maps a gateway id to `Some(true)` while its
   * removal is in flight and to `None` (the value `undefined`) once it settles.
   */
  datatype State<Row, Form> = State(
    listFetching: bool,
    listData: seq<Row>,
    formFetching: bool,
    formData: Option<Form>,
    formSaving: bool,
    formError: Option<string>,
    listRemoving: map<int, Option<bool>>)

  /** The action types the reducer handles, with the payload it reads; anything else is `Unrecognised`. */
  datatype Action<Row, Form> =
    | GetSmsGatewaysRequest
    | GetSmsGatewaysSuccess(list: seq<Row>)
    | GetSmsGatewaysFailure
    | OpenEditionInvoke
    | OpenEditionRequest
    | OpenEditionSuccess(data: Form)
    | OpenEditionFailure
    | CreateRequest
    | CreateSuccess
    | CreateFailure(message: string)
    | EditRequest
    | EditSuccess
    | EditFailure
    | RemoveRequest(id: int)
    | RemoveSuccess(id: int)
    | RemoveFailure(id: int)
    | Unrecognised(actionType: string)

  /** The properties of the slice, by name. */
  datatype Field = ListFetching | ListData | FormFetching | FormData | FormSaving | FormError | ListRemoving

  /** `s` and `t` agree on field `f`. */
  ghost predicate SameField<Row, Form>(s: State<Row, Form>, t: State<Row, Form>, f: Field) {
    match f
    case ListFetching => s.listFetching == t.listFetching
    case ListData => s.listData == t.listData
    case FormFetching => s.formFetching == t.formFetching
    case FormData => s.formData == t.formData
    case FormSaving => s.formSaving == t.formSaving
    case FormError => s.formError == t.formError
    case ListRemoving => s.listRemoving == t.listRemoving
  }

  /** The fields each case names in its object literal after `...state`. */
  function Names<Row, Form>(a: Action<Row, Form>): set<Field> {
    match a
    case GetSmsGatewaysRequest => {ListFetching, ListData}
    case GetSmsGatewaysSuccess(_) => {ListFetching, ListData}
    case GetSmsGatewaysFailure => {ListFetching, ListData}
    case OpenEditionInvoke => {FormFetching, FormData}
    case OpenEditionRequest => {FormFetching, FormData}
    case OpenEditionSuccess(_) => {FormFetching, FormData}
    case OpenEditionFailure => {FormFetching}
    case CreateRequest => {FormSaving}
    case CreateSuccess => {FormSaving, ListData}
    case CreateFailure(_) => {FormSaving, FormError}
    case EditRequest => {FormSaving}
    case EditSuccess => {FormSaving, ListData}
    case EditFailure => {FormSaving}
    case RemoveRequest(_) => {ListRemoving}
    case RemoveSuccess(_) => {ListRemoving}
    case RemoveFailure(_) => {ListRemoving}
    case Unrecognised(_) => {}
  }

  /**
   * `smsGatewaysReducer`: the next slice after `action`. Every handled case
   * copies the previous slice and overrides only the fields it names; an
   * unrecognised action returns the previous slice itself.
   */
  function Reduce<Row, Form>(state: State<Row, Form>, action: Action<Row, Form>): (next: State<Row, Form>)
    ensures forall f :: f !in Names(action) ==> SameField(state, next, f)
    ensures action.Unrecognised? ==> next == state
  {
    match action
    case GetSmsGatewaysRequest => state.(listFetching := true, listData := [])
    case GetSmsGatewaysSuccess(list) => state.(listFetching := false, listData := list)
    case GetSmsGatewaysFailure => state.(listFetching := false, listData := [])
    case OpenEditionInvoke => state.(formFetching := true, formData := None)
    case OpenEditionRequest => state.(formFetching := true, formData := None)
    case OpenEditionSuccess(data) => state.(formFetching := false, formData := Some(data))
    case OpenEditionFailure => state.(formFetching := false)
    case CreateRequest => state.(formSaving := true)
    case CreateSuccess => state.(formSaving := false, listData := [])
    case CreateFailure(message) => state.(formSaving := false, formError := Some(message))
    case EditRequest => state.(formSaving := true)
    case EditSuccess => state.(formSaving := false, listData := [])
    case EditFailure => state.(formSaving := false)
    case RemoveRequest(id) => state.(listRemoving := state.listRemoving[id := Some(true)])
    case RemoveSuccess(id) => state.(listRemoving := state.listRemoving[id := None])
    case RemoveFailure(id) => state.(listRemoving := state.listRemoving[id := None])
    case Unrecognised(_) => state
  }

  /** The removal of gateway `id` is in flight. */
  predicate IsRemoving<Row, Form>(s: State<Row, Form>, id: int) {
    id in s.listRemoving && s.listRemoving[id] == Some(true)
  }

  /**
   * A fetch request raises the list-fetching flag and empties the list; either
   * outcome lowers it, from any state; only a success keeps data.
   */
  lemma ListFetchCycle<Row, Form>(s: State<Row, Form>, list: seq<Row>)
    ensures Reduce(s, GetSmsGatewaysRequest).listFetching && Reduce(s, GetSmsGatewaysRequest).listData == []
    ensures var t := Reduce(s, GetSmsGatewaysSuccess(list)); !t.listFetching && t.listData == list
    ensures var t := Reduce(s, GetSmsGatewaysFailure); !t.listFetching && t.listData == []
  {
  }

  /**
   * Opening the edit form clears stale form data; a failed load lowers the
   * flag and keeps whatever `formData` held, a successful one stores it.
   */
  lemma OpenEditionCycle<Row, Form>(s: State<Row, Form>, data: Form)
    ensures var t := Reduce(s, OpenEditionInvoke); t.formFetching && t.formData == None
    ensures Reduce(s, OpenEditionRequest) == Reduce(s, OpenEditionInvoke)
    ensures var t := Reduce(s, OpenEditionSuccess(data)); !t.formFetching && t.formData == Some(data)
    ensures var t := Reduce(s, OpenEditionFailure); !t.formFetching && t.formData == s.formData
  {
  }

  /**
   * Creating and editing succeed alike (saving flag down, list emptied so it
   * is fetched again); both failures lower the saving flag, but only a failed
   * create records its message.
   */
  lemma CreateAndEditOutcomes<Row, Form>(s: State<Row, Form>, message: string)
    ensures Reduce(s, CreateSuccess) == Reduce(s, EditSuccess)
    ensures !Reduce(s, CreateSuccess).formSaving && Reduce(s, CreateSuccess).listData == []
    ensures Reduce(s, CreateRequest) == Reduce(s, EditRequest) && Reduce(s, CreateRequest).formSaving
    ensures !Reduce(s, CreateFailure(message)).formSaving && !Reduce(s, EditFailure).formSaving
    ensures Reduce(s, CreateFailure(message)).formError == Some(message)
    ensures Reduce(s, EditFailure).formError == s.formError
    ensures Reduce(s, CreateFailure(message)) == Reduce(s, EditFailure).(formError := Some(message))
  {
  }

  /**
   * A removal request marks exactly its gateway as in flight; success and
   * failure both reset that entry to `undefined`, from any state, and touch
   * no other entry.
   */
  lemma RemoveCycle<Row, Form>(s: State<Row, Form>, id: int, other: int)
    requires other != id
    ensures IsRemoving(Reduce(s, RemoveRequest(id)), id)
    ensures Reduce(s, RemoveSuccess(id)).listRemoving == s.listRemoving[id := None] == Reduce(s, RemoveFailure(id)).listRemoving
    ensures var t := Reduce(Reduce(s, RemoveRequest(id)), RemoveSuccess(id));
            !IsRemoving(t, id) && id in t.listRemoving && t.listRemoving[id] == None
    ensures Reduce(Reduce(s, RemoveRequest(id)), RemoveFailure(id))
         == Reduce(Reduce(s, RemoveRequest(id)), RemoveSuccess(id))
    ensures forall a: Action<Row, Form> :: a in [RemoveRequest(id), RemoveSuccess(id), RemoveFailure(id)] ==>
              (other in Reduce(s, a).listRemoving <==> other in s.listRemoving)
              && (other in s.listRemoving ==> Reduce(s, a).listRemoving[other] == s.listRemoving[other])
  {
  }

  /** Dispatching the same action twice in a row has the effect of dispatching it once. */
  lemma ReduceIdempotent<Row, Form>(s: State<Row, Form>, a: Action<Row, Form>)
    ensures Reduce(Reduce(s, a), a) == Reduce(s, a)
  {
  }

  /**
   * Actions that name disjoint fields commute: the order in which, say, a
   * list fetch and a form save settle does not matter.
   */
  lemma DisjointActionsCommute<Row, Form>(s: State<Row, Form>, a: Action<Row, Form>, b: Action<Row, Form>)
    requires Names(a) !! Names(b)
    ensures Reduce(Reduce(s, a), b) == Reduce(Reduce(s, b), a)
  {
  }
}
