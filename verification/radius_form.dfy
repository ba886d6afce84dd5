/** The RADIUS server page: the "add server" form with its required-field check,
    the reset after a successful add, and the in-place edits of the listed servers. */
module RadiusForm {
  import opened Options
  import opened Decimal

  /** `newServer` and each listed server's editable fields. The port is whatever
      `Number(...)` made of the port input. */
  datatype ServerFields = ServerFields(name: string, description: string, dbHost: string, dbPort: JsNum,
                                       dbName: string, dbUser: string, dbPassword: string)

  /** A listed server: its id and its fields. */
  datatype RadiusServer = RadiusServer(id: nat, fields: ServerFields)

  /** The keys of `FormErrors`: the required fields. */
  datatype Required = Name | DbHost | DbPort | DbName | DbUser | DbPassword

  /** The form on first render and after a successful add: empty texts and port 3306. */
  const BlankForm: ServerFields := ServerFields("", "", "", Num(3306), "", "", "")

  /** JavaScript truthiness of a required field: a non-empty text, a port that is
      neither `0` nor `NaN`. */
  predicate Filled(f: ServerFields, field: Required)
  {
    match field
    case Name => f.name != ""
    case DbHost => f.dbHost != ""
    case DbPort => f.dbPort.Truthy()
    case DbName => f.dbName != ""
    case DbUser => f.dbUser != ""
    case DbPassword => f.dbPassword != ""
  }

  /** The fields `validateForm` checks, in its order. */
  const Checked: seq<Required> := [Name, DbHost, DbPort, DbName, DbUser, DbPassword]

  /** The message shown under a missing field. */
  function Message(field: Required): string
  {
    match field
    case Name => "Name is required"
    case DbHost => "Database host is required"
    case DbPort => "Database port is required"
    case DbName => "Database name is required"
    case DbUser => "Database user is required"
    case DbPassword => "Database password is required"
  }

  /** The messages collected by checking `fields` one after the other: a field
      gets its message exactly when it was checked and found falsy. */
  function Collect(f: ServerFields, fields: seq<Required>): (errors: map<Required, string>)
    ensures forall field :: field in errors <==> field in fields && !Filled(f, field)
    ensures forall field :: field in errors ==> errors[field] == Message(field)
  {
    if |fields| == 0 then map[]
    else
      var before := Collect(f, fields[..|fields| - 1]);
      var field := fields[|fields| - 1];
      if Filled(f, field) then before else before[field := Message(field)]
  }

  /** Every required field is among the checked ones. */
  lemma AllChecked(field: Required)
    ensures field in Checked
  {
    match field
    case Name => assert Checked[0] == field;
    case DbHost => assert Checked[1] == field;
    case DbPort => assert Checked[2] == field;
    case DbName => assert Checked[3] == field;
    case DbUser => assert Checked[4] == field;
    case DbPassword => assert Checked[5] == field;
  }

  /** `validateForm`: the messages of the falsy required fields, and whether
      there were none. */
  function ValidateForm(f: ServerFields): (result: (map<Required, string>, bool))
    ensures forall field :: field in result.0 <==> !Filled(f, field)
    ensures forall field :: field in result.0 ==> result.0[field] == Message(field)
    ensures result.1 <==> f.name != "" && f.dbHost != "" && f.dbPort.Truthy() && f.dbName != ""
                          && f.dbUser != "" && f.dbPassword != ""
  {
    var errors := Collect(f, Checked);
    forall field: Required ensures field in errors <==> !Filled(f, field) {
      AllChecked(field);
    }
    assert (Name !in errors && DbHost !in errors && DbPort !in errors && DbName !in errors
            && DbUser !in errors && DbPassword !in errors) ==> errors.Keys == {};
    (errors, |errors.Keys| == 0)
  }

  /** Checking never looks at the description. */
  lemma {:induction false} CollectIgnoresDescription(f: ServerFields, description: string, fields: seq<Required>)
    ensures Collect(f.(description := description), fields) == Collect(f, fields)
    decreases |fields|
  {
    if |fields| > 0 {
      CollectIgnoresDescription(f, description, fields[..|fields| - 1]);
    }
  }

  /** The description is optional: forms that differ only there validate alike. */
  lemma DescriptionNeverChecked(f: ServerFields, description: string)
    ensures ValidateForm(f.(description := description)) == ValidateForm(f)
  {
    CollectIgnoresDescription(f, description, Checked);
  }

  /** A port of `0` (what an emptied number input yields) counts as missing. */
  lemma ZeroPortIsMissing(f: ServerFields)
    requires f.dbPort == Num(0)
    ensures DbPort in ValidateForm(f).0 && !ValidateForm(f).1
  {
  }

  /** A form whose required texts are all empty but whose port is set, such as
      `BlankForm` with its 3306, reports name, host, database, user and
      password, and not the port. */
  lemma EmptyTextsReportFive(f: ServerFields)
    requires f.name == "" && f.dbHost == "" && f.dbName == "" && f.dbUser == "" && f.dbPassword == ""
    requires f.dbPort.Truthy()
    ensures forall field :: field in ValidateForm(f).0 <==> field != DbPort
    ensures !ValidateForm(f).1
  {
    var errors := ValidateForm(f).0;
    forall field ensures field in errors <==> field != DbPort {
      assert field in errors <==> !Filled(f, field);
    }
  }

  /** The page state `handleAddServer` works on. */
  datatype AddState = AddState(form: ServerFields, errors: map<Required, string>)

  /** What pressing "Add Server" did: the new state, and the body POSTed, if any. */
  datatype AddResult = AddResult(state: AddState, posted: Option<ServerFields>)

  /** `handleAddServer`, with `postSucceeds` the server's verdict on the POST. An
      invalid form posts nothing and shows the messages; a valid one is posted,
      and only a successful post resets the form and clears the messages. */
  function AddServer(form: ServerFields, postSucceeds: bool): (r: AddResult)
    ensures !ValidateForm(form).1 ==> r.posted == None && r.state == AddState(form, ValidateForm(form).0)
    ensures ValidateForm(form).1 ==> r.posted == Some(form) && r.state.errors == map[]
    ensures ValidateForm(form).1 && postSucceeds ==> r.state.form == BlankForm
    ensures ValidateForm(form).1 && !postSucceeds ==> r.state.form == form
  {
    var (errors, valid) := ValidateForm(form);
    if !valid then AddResult(AddState(form, errors), None)
    else if postSucceeds then AddResult(AddState(BlankForm, map[]), Some(form))
    else AddResult(AddState(form, errors), Some(form))
  }

  /** Nothing is ever posted that fails the required-field check. */
  lemma PostedFormsAreValid(form: ServerFields, postSucceeds: bool)
    ensures AddServer(form, postSucceeds).posted.Some? ==>
              forall field :: Filled(AddServer(form, postSucceeds).posted.value, field)
  {
  }

  /** One keystroke in one input: the new text (for the port, `Number` of it). */
  datatype Edit =
    | SetName(text: string)
    | SetDescription(text: string)
    | SetDbHost(text: string)
    | SetDbPort(text: string)
    | SetDbName(text: string)
    | SetDbUser(text: string)
    | SetDbPassword(text: string)

  /** Every field, editable or not. */
  datatype FieldName = FName | FDescription | FDbHost | FDbPort | FDbName | FDbUser | FDbPassword

  datatype FieldValue = TextValue(text: string) | PortValue(port: JsNum)

  function FieldOf(f: ServerFields, name: FieldName): FieldValue
  {
    match name
    case FName => TextValue(f.name)
    case FDescription => TextValue(f.description)
    case FDbHost => TextValue(f.dbHost)
    case FDbPort => PortValue(f.dbPort)
    case FDbName => TextValue(f.dbName)
    case FDbUser => TextValue(f.dbUser)
    case FDbPassword => TextValue(f.dbPassword)
  }

  function Target(e: Edit): FieldName
  {
    match e
    case SetName(_) => FName
    case SetDescription(_) => FDescription
    case SetDbHost(_) => FDbHost
    case SetDbPort(_) => FDbPort
    case SetDbName(_) => FDbName
    case SetDbUser(_) => FDbUser
    case SetDbPassword(_) => FDbPassword
  }

  /** The value an edit writes into its field. */
  function Written(e: Edit): FieldValue
  {
    if e.SetDbPort? then PortValue(Number(e.text)) else TextValue(e.text)
  }

  /** `{ ...s, field: value }`: the edited field takes the new value and every
      other field keeps its own. */
  function ApplyEdit(f: ServerFields, e: Edit): (g: ServerFields)
    ensures FieldOf(g, Target(e)) == Written(e)
    ensures forall name :: name != Target(e) ==> FieldOf(g, name) == FieldOf(f, name)
  {
    match e
    case SetName(t) => f.(name := t)
    case SetDescription(t) => f.(description := t)
    case SetDbHost(t) => f.(dbHost := t)
    case SetDbPort(t) => f.(dbPort := Number(t))
    case SetDbName(t) => f.(dbName := t)
    case SetDbUser(t) => f.(dbUser := t)
    case SetDbPassword(t) => f.(dbPassword := t)
  }

  /** `radiusServers.map((s) => s.id === id ? { ...s, field: value } : s)`: the
      servers with that id get the edit, all others are left alone, and the list
      keeps its length and order. */
  function EditServers(servers: seq<RadiusServer>, id: nat, e: Edit): (r: seq<RadiusServer>)
    ensures |r| == |servers|
    ensures forall i :: 0 <= i < |r| ==> r[i].id == servers[i].id
    ensures forall i :: 0 <= i < |r| && servers[i].id == id ==> r[i].fields == ApplyEdit(servers[i].fields, e)
    ensures forall i :: 0 <= i < |r| && servers[i].id != id ==> r[i] == servers[i]
  {
    seq(|servers|, i requires 0 <= i < |servers| =>
      if servers[i].id == id then servers[i].(fields := ApplyEdit(servers[i].fields, e)) else servers[i])
  }

  /** An edit of one field of server `id` changes that field of that server and
      nothing else: every other server, and every other field of it, is as before. */
  lemma EditTouchesOneField(servers: seq<RadiusServer>, id: nat, e: Edit, i: nat, name: FieldName)
    requires i < |servers|
    ensures var r := EditServers(servers, id, e);
            && (servers[i].id != id || name != Target(e) ==> FieldOf(r[i].fields, name) == FieldOf(servers[i].fields, name))
            && (servers[i].id == id ==> FieldOf(r[i].fields, Target(e)) == Written(e))
  {
  }
}
