/**
 * The table dialog of the database page: an editable list of field
 * definitions that always holds at least one entry, and the checks that run
 * before a table definition is sent to the user-tables endpoint.
 */
module DatabaseManagement {
  import opened Text
  import opened Sequences

  datatype Field = Field(name: string, fieldType: string)

  /** The two keys `handleFieldChange` may set. */
  datatype FieldKey = Name | Type

  const BlankField := Field("", "")

  /** A table as the list of tables shows it. */
  datatype DatabaseTable = DatabaseTable(id: string, name: string, description: string, fields: seq<Field>)

  /** The metadata sent on save; `schema` is the field list that is serialised into `schemaJson`. */
  datatype TablePayload = TablePayload(projectId: Option<string>, name: string, description: string, schema: seq<Field>)

  datatype SaveRequest = Post(payload: TablePayload) | Put(id: string, payload: TablePayload)

  datatype SaveError = MissingNameOrDescription | NoFields

  datatype Result<T, E> = Ok(value: T) | Err(error: E)

  /** One entry with one key set to `value`. */
  function SetKey(f: Field, key: FieldKey, value: string): (r: Field)
    ensures key == Name ==> r.name == value && r.fieldType == f.fieldType
    ensures key == Type ==> r.fieldType == value && r.name == f.name
  {
    match key
    case Name => f.(name := value)
    case Type => f.(fieldType := value)
  }

  /** The list after `handleRemoveField`: the entry removed, or one blank entry if nothing is left. */
  function RemoveField(fields: seq<Field>, index: int): (r: seq<Field>)
    ensures r != []
    ensures |RemoveAt(fields, index)| > 0 ==> r == RemoveAt(fields, index)
    ensures RemoveAt(fields, index) == [] ==> r == [BlankField]
  {
    var rest := RemoveAt(fields, index);
    if |rest| > 0 then rest else [BlankField]
  }

  /** Removing from a list of two or more deletes exactly that entry and keeps the others in order. */
  lemma RemoveFieldExactly(fields: seq<Field>, index: int)
    requires 0 <= index < |fields| && |fields| >= 2
    ensures RemoveField(fields, index) == fields[..index] + fields[index + 1..]
  {
    var r := RemoveField(fields, index);
    assert |r| == |fields| - 1;
    forall i | 0 <= i < |r| ensures r[i] == (fields[..index] + fields[index + 1..])[i] {
      if i < index {
        assert r[i] == fields[i];
      } else {
        assert r[i] == fields[i + 1];
      }
    }
  }

  /** Removing the only entry leaves one blank entry. */
  lemma RemoveLastField(f: Field)
    ensures RemoveField([f], 0) == [BlankField]
  {
    assert |RemoveAt([f], 0)| == 0;
  }

  /** The fields opened in the dialog: the table's own, or one blank entry when it has none. */
  function OpenedFields(table: Option<DatabaseTable>): (r: seq<Field>)
    ensures r != []
    ensures table.Some? && table.value.fields != [] ==> r == table.value.fields
    ensures !(table.Some? && table.value.fields != []) ==> r == [BlankField]
  {
    if table.Some? && |table.value.fields| > 0 then table.value.fields else [BlankField]
  }

  /** `validFields`: the entries whose name is not blank. */
  function ValidFields(fields: seq<Field>): (r: seq<Field>)
    ensures forall i :: 0 <= i < |r| ==> r[i] in fields && !IsBlank(r[i].name)
    ensures forall i :: 0 <= i < |fields| && !IsBlank(fields[i].name) ==> fields[i] in r
  {
    Filter(fields, (f: Field) => !IsBlank(f.name))
  }

  /**
   * `validFields` keeps each entry with a non-blank name, drops each one
   * with a blank name and keeps the original order.
   */
  lemma ValidFieldsOrdered(a: seq<Field>, b: seq<Field>, f: Field)
    ensures ValidFields(a + b) == ValidFields(a) + ValidFields(b)
    ensures ValidFields([f]) == if IsBlank(f.name) then [] else [f]
  {
    FilterConcat(a, b, (f: Field) => !IsBlank(f.name));
    FilterSingleton(f, (f: Field) => !IsBlank(f.name));
  }

  /** `validFields` is empty exactly when every name is blank. */
  lemma NoValidFields(fields: seq<Field>)
    ensures ValidFields(fields) == [] <==> forall i :: 0 <= i < |fields| ==> IsBlank(fields[i].name)
  {
    FilterEmptyIff(fields, (f: Field) => !IsBlank(f.name));
  }

  /**
   * `handleSave` up to the request: refused when the name or description
   * is blank, then when no field has a name; otherwise the create or update
   * request whose schema is the valid fields as typed (names not trimmed).
   */
  function SaveTable(projectId: Option<string>, tableName: string, tableDescription: string,
                     fields: seq<Field>, editing: Option<DatabaseTable>): (r: Result<SaveRequest, SaveError>)
    ensures r == Err(MissingNameOrDescription) <==> IsBlank(tableName) || IsBlank(tableDescription)
    ensures r == Err(NoFields) <==>
      !IsBlank(tableName) && !IsBlank(tableDescription) && forall i :: 0 <= i < |fields| ==> IsBlank(fields[i].name)
    ensures r.Ok? ==> r.value.payload == TablePayload(projectId, tableName, tableDescription, ValidFields(fields))
    ensures r.Ok? ==> (r.value.Put? <==> editing.Some?) && (r.value.Put? ==> r.value.id == editing.value.id)
  {
    NoValidFields(fields);
    if IsBlank(tableName) || IsBlank(tableDescription) then Err(MissingNameOrDescription)
    else
      var valid := ValidFields(fields);
      if |valid| == 0 then Err(NoFields)
      else
        var payload := TablePayload(projectId, tableName, tableDescription, valid);
        if editing.Some? then Ok(Put(editing.value.id, payload)) else Ok(Post(payload))
  }

  /** The dialog state of the database page. */
  class SchemaForm {
    var editingTable: Option<DatabaseTable>
    var tableName: string
    var tableDescription: string
    var tableFields: seq<Field>
    var dialogOpen: bool

    /** The field list is never empty. */
    ghost predicate Valid()
      reads this
    {
      |tableFields| > 0
    }

    constructor()
      ensures Valid()
      ensures editingTable == None && tableName == "" && tableDescription == ""
      ensures tableFields == [BlankField] && !dialogOpen
    {
      editingTable := None;
      tableName := "";
      tableDescription := "";
      tableFields := [BlankField];
      dialogOpen := false;
    }

    /** `resetForm`. */
    method ResetForm()
      modifies this
      ensures Valid()
      ensures editingTable == None && tableName == "" && tableDescription == ""
      ensures tableFields == [BlankField] && dialogOpen == old(dialogOpen)
    {
      editingTable := None;
      tableName := "";
      tableDescription := "";
      tableFields := [BlankField];
    }

    /** `handleOpenDialog`: load the table, or reset for a new one, and open the dialog. */
    method OpenDialog(table: Option<DatabaseTable>)
      modifies this
      ensures Valid()
      ensures editingTable == table && dialogOpen
      ensures tableName == (if table.Some? then table.value.name else "")
      ensures tableDescription == (if table.Some? then table.value.description else "")
      ensures tableFields == OpenedFields(table)
    {
      if table.Some? {
        editingTable := table;
        tableName := table.value.name;
        tableDescription := table.value.description;
        tableFields := OpenedFields(table);
      } else {
        ResetForm();
      }
      dialogOpen := true;
    }

    /** `handleAddField`: one blank entry appended. */
    method AddField()
      requires Valid()
      modifies this
      ensures Valid()
      ensures tableFields == old(tableFields) + [BlankField]
      ensures editingTable == old(editingTable) && tableName == old(tableName)
      ensures tableDescription == old(tableDescription) && dialogOpen == old(dialogOpen)
    {
      tableFields := tableFields + [BlankField];
    }

    /** `handleFieldChange`: one key of the entry at `index` set; the rest of the list unchanged. */
    method ChangeField(index: int, key: FieldKey, value: string)
      requires Valid() && 0 <= index < |tableFields|
      modifies this
      ensures Valid()
      ensures tableFields == old(tableFields)[index := SetKey(old(tableFields)[index], key, value)]
      ensures editingTable == old(editingTable) && tableName == old(tableName)
      ensures tableDescription == old(tableDescription) && dialogOpen == old(dialogOpen)
    {
      var newFields := tableFields;
      newFields := newFields[index := SetKey(newFields[index], key, value)];
      tableFields := newFields;
    }

    /** `handleRemoveField`. */
    method RemoveFieldAt(index: int)
      requires Valid()
      modifies this
      ensures Valid()
      ensures tableFields == RemoveField(old(tableFields), index)
      ensures editingTable == old(editingTable) && tableName == old(tableName)
      ensures tableDescription == old(tableDescription) && dialogOpen == old(dialogOpen)
    {
      tableFields := RemoveField(tableFields, index);
    }

  }
}
