/** The request handlers as transitions of one abstract state: the two
    tables and the client's session. Rendering, flash messages and redirects
    are replaced by a `Reply` saying what the handler produced. */
module App {
  import opened Wrappers
  import opened Inventory
  import Accounts
  import opened Summary
  import SummaryOrder
  import Seqs

  datatype State = State(inventory: Store, users: Accounts.Users, session: Option<string>)

  /** One request, by route and method. Registration carries the salted hash
      werkzeug made of the submitted password. */
  datatype Request =
    | Home
    | AddProduct(id: string, form: Form)
    | ListInventory
    | EditForm(id: string)
    | EditProduct(id: string, form: Form)
    | DeleteProduct(id: string)
    | ShowSummary(vendor: string, startDate: string, endDate: string)
    | RegisterUser(username: string, passwordHash: string)
    | LogIn(username: string, password: string)
    | LogOut

  /** The failures the handlers report to the user. */
  datatype Error = DuplicateProductId | DuplicateUsername | InvalidCredentials | Unauthenticated

  datatype Reply =
    | Done
    | Refused(error: Error)
    | Listing(products: seq<Product>)
    | EditPage(product: Option<Product>)
    | SummaryPage(view: View)

  datatype Step = Step(reply: Reply, state: State)

  /** Routes behind the login gate: all but registration and login. */
  predicate Protected(req: Request)
  {
    !(req.RegisterUser? || req.LogIn?)
  }

  /** POST /login: the session names the user exactly when the credentials
      verify; otherwise nothing changes and the failure does not say which
      part was wrong. */
  function LogInStep(st: State, name: string, password: string, check: (string, string) -> bool): (out: Step)
    ensures Accounts.Verify(st.users, name, password, check) ==>
      out == Step(Done, st.(session := Some(name)))
    ensures !Accounts.Verify(st.users, name, password, check) ==>
      out == Step(Refused(InvalidCredentials), st)
  {
    if name in st.users && check(st.users[name], password) then Step(Done, st.(session := Some(name)))
    else Step(Refused(InvalidCredentials), st)
  }

  /** POST /register: a fresh username is stored with its hash; a taken one
      is refused and the users are untouched. The session is not touched. */
  function RegisterStep(st: State, name: string, hash: string): (out: Step)
    ensures out.state.inventory == st.inventory && out.state.session == st.session
    ensures name in st.users ==> out == Step(Refused(DuplicateUsername), st)
    ensures name !in st.users ==>
      && out.reply == Done
      && out.state.users.Keys == st.users.Keys + {name}
      && out.state.users[name] == hash
      && forall k :: k in st.users ==> out.state.users[k] == st.users[k]
  {
    match Accounts.Register(st.users, name, hash)
    case None => Step(Refused(DuplicateUsername), st)
    case Some(users) => Step(Done, st.(users := users))
  }

  /** POST /add: a fresh id is inserted; a taken one is refused and the store
      is untouched. */
  function AddStep(st: State, id: string, form: Form): (out: Step)
    ensures out.state.users == st.users && out.state.session == st.session
    ensures id in st.inventory ==> out == Step(Refused(DuplicateProductId), st)
    ensures id !in st.inventory ==>
      && out.reply == Done
      && out.state.inventory.Keys == st.inventory.Keys + {id}
      && out.state.inventory[id] == Row(id, form)
      && forall k :: k in st.inventory ==> out.state.inventory[k] == st.inventory[k]
  {
    match Add(st.inventory, id, form)
    case None => Step(Refused(DuplicateProductId), st)
    case Some(inv) => Step(Done, st.(inventory := inv))
  }

  /** GET /inventory: every stored product, each once, nothing changes. */
  function ListStep(st: State): (out: Step)
    ensures out.state == st
    ensures out.reply.Listing? && forall p :: p in out.reply.products <==> p in st.inventory.Values
    ensures |out.reply.products| == |st.inventory|
    ensures WellKeyed(st.inventory) ==> Seqs.NoRepeats(out.reply.products)
  {
    Step(Listing(Enumerate(st.inventory)), st)
  }

  /** GET /summary: the dashboard over every stored product, nothing changes. */
  function SummaryStep(st: State, vendor: string, startDate: string, endDate: string): (out: Step)
    ensures out.state == st && out.reply.SummaryPage?
  {
    Step(SummaryPage(Summarize(Enumerate(st.inventory), vendor, startDate, endDate)), st)
  }

  /** What a handler does once past the gate. */
  function Serve(st: State, req: Request, check: (string, string) -> bool): Step
  {
    match req
    case Home => Step(Done, st)
    case AddProduct(id, form) => AddStep(st, id, form)
    case ListInventory => ListStep(st)
    case EditForm(id) => Step(EditPage(Get(st.inventory, id)), st)
    case EditProduct(id, form) => Step(Done, st.(inventory := Edit(st.inventory, id, form)))
    case DeleteProduct(id) => Step(Done, st.(inventory := Delete(st.inventory, id)))
    case ShowSummary(vendor, startDate, endDate) => SummaryStep(st, vendor, startDate, endDate)
    case RegisterUser(name, hash) => RegisterStep(st, name, hash)
    case LogIn(name, password) => LogInStep(st, name, password, check)
    case LogOut => Step(Done, st.(session := None))
  }

  /** A request as the application handles it: protected routes without a
      logged-in user are turned away with the state unchanged. Only the
      registration route writes users, only add/edit/delete write products,
      only login and logout move the session, and logout always ends it.
      Every row stays stored under its own id. */
  function Handle(st: State, req: Request, check: (string, string) -> bool): (out: Step)
    ensures Protected(req) && st.session.None? ==> out == Step(Refused(Unauthenticated), st)
    ensures !req.RegisterUser? ==> out.state.users == st.users
    ensures !(req.AddProduct? || req.EditProduct? || req.DeleteProduct?) ==> out.state.inventory == st.inventory
    ensures !(req.LogIn? || req.LogOut?) ==> out.state.session == st.session
    ensures req.LogOut? ==> out.state.session == None
    ensures WellKeyed(st.inventory) ==> WellKeyed(out.state.inventory)
  {
    if Protected(req) && st.session.None? then Step(Refused(Unauthenticated), st)
    else Serve(st, req, check)
  }

  /** The state after handling `reqs` in order. */
  function Run(st: State, reqs: seq<Request>, check: (string, string) -> bool): State
    decreases |reqs|
  {
    if reqs == [] then st else Run(Handle(st, reqs[0], check).state, reqs[1..], check)
  }

  /** A client that is not logged in and never logs in changes no product,
      however many requests it sends, and stays logged out. */
  lemma {:induction false} LoggedOutCannotWrite(st: State, reqs: seq<Request>, check: (string, string) -> bool)
    requires st.session.None?
    requires forall i :: 0 <= i < |reqs| ==> !reqs[i].LogIn?
    ensures Run(st, reqs, check).inventory == st.inventory
    ensures Run(st, reqs, check).session.None?
    decreases |reqs|
  {
    if reqs != [] {
      var next := Handle(st, reqs[0], check).state;
      LoggedOutCannotWrite(next, reqs[1..], check);
    }
  }

  /** Registering a new user and then logging in with a password that checks
      against the stored hash opens a session for that user. */
  lemma RegisterThenLogIn(st: State, name: string, password: string, hash: string,
                          check: (string, string) -> bool)
    requires name !in st.users && check(hash, password)
    ensures var registered := Handle(st, RegisterUser(name, hash), check);
      registered.reply == Done
      && Handle(registered.state, LogIn(name, password), check).state.session == Some(name)
  {
  }

  /** Adding a product id that is already stored is refused for a logged-in
      user and leaves the whole state as it was. */
  lemma DuplicateAddChangesNothing(st: State, id: string, form: Form, check: (string, string) -> bool)
    requires st.session.Some? && id in st.inventory
    ensures Handle(st, AddProduct(id, form), check) == Step(Refused(DuplicateProductId), st)
  {
  }

  /** Past the gate, the edit form shows the stored row (or none), the edit
      POST applies `Edit` and always reports success, and delete applies
      `Delete`; users and session stay as they were. */
  lemma LoggedInEditAndDelete(st: State, id: string, form: Form, check: (string, string) -> bool)
    requires st.session.Some?
    ensures Handle(st, EditForm(id), check) == Step(EditPage(Get(st.inventory, id)), st)
    ensures Handle(st, EditProduct(id, form), check) == Step(Done, st.(inventory := Edit(st.inventory, id, form)))
    ensures Handle(st, DeleteProduct(id), check) == Step(Done, st.(inventory := Delete(st.inventory, id)))
  {
  }

  /** Deleting the same id twice leaves the same state as deleting it once. */
  lemma DeleteTwiceIsDeleteOnce(st: State, id: string, check: (string, string) -> bool)
    ensures var once := Handle(st, DeleteProduct(id), check).state;
      Handle(once, DeleteProduct(id), check).state == once
  {
  }

  /** `rows` is a result SQLite may give for `SELECT` over the whole table:
      each stored row exactly once, in an order the application does not
      choose. */
  ghost predicate IsListing(rows: seq<Product>, s: Store)
  {
    && (forall p :: p in rows <==> p in s.Values)
    && Seqs.NoRepeats(rows)
  }

  /** The summary page a logged-in user sees is the summary of whichever
      listing the database returns. */
  lemma SummaryOfAnyListing(st: State, rows: seq<Product>, vendor: string, startDate: string, endDate: string,
                            check: (string, string) -> bool)
    requires st.session.Some? && WellKeyed(st.inventory)
    requires IsListing(rows, st.inventory)
    ensures Handle(st, ShowSummary(vendor, startDate, endDate), check).reply
         == SummaryPage(Summarize(rows, vendor, startDate, endDate))
  {
    var listed := Enumerate(st.inventory);
    SummaryReply(st, vendor, startDate, endDate, check);
    ListingsAgree(st.inventory, rows);
    SummaryOrder.SameRowsSameSummary(rows, listed, vendor, startDate, endDate);
  }

  /** Past the gate, the summary route renders the summary of the fixed
      enumeration of the store. */
  lemma SummaryReply(st: State, vendor: string, startDate: string, endDate: string,
                     check: (string, string) -> bool)
    requires st.session.Some?
    ensures Handle(st, ShowSummary(vendor, startDate, endDate), check).reply
         == SummaryPage(Summarize(Enumerate(st.inventory), vendor, startDate, endDate))
  {
    GatePasses(st, ShowSummary(vendor, startDate, endDate), check);
    assert Serve(st, ShowSummary(vendor, startDate, endDate), check) == SummaryStep(st, vendor, startDate, endDate);
  }

  /** With a user in the session every request reaches its handler. */
  lemma GatePasses(st: State, req: Request, check: (string, string) -> bool)
    requires st.session.Some?
    ensures Handle(st, req, check) == Serve(st, req, check)
  {
  }

  /** Any listing of a store has the same rows as the fixed enumeration, and
      neither repeats a row. */
  lemma ListingsAgree(s: Store, rows: seq<Product>)
    requires WellKeyed(s) && IsListing(rows, s)
    ensures Seqs.NoRepeats(rows) && Seqs.NoRepeats(Enumerate(s))
    ensures forall p :: p in rows <==> p in Enumerate(s)
  {
  }
}
