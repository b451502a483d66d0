/** The form dictionary helpers: building an empty form from a template
    schema, reordering its sections and adding optional fields, and turning
    an error into the message shown to the user. Dictionaries keep insertion
    order, as Python's do. */
module FormComponent {
  import opened Outcomes
  import opened OrderedDict

  /** A field's entry: None until the user fills it in. */
  type FieldMap = Dict<string, Option<string>>

  /** The value of a form section: a dict of fields, or Python's None for an
      optional field added by customisation. */
  datatype FormValue = NoneValue | Section(fields: FieldMap)

  type Form = Dict<string, FormValue>

  /** A template schema: section name to the list of its field names. */
  type Schema = Dict<string, seq<string>>

  /** `{field: None for field in fields}`: one key per distinct field name, in
      order of first occurrence, every value None. */
  function EmptyFields(fields: seq<string>): (r: FieldMap)
    ensures Keys(r) == Dedup(fields)
    ensures forall i | 0 <= i < |r| :: r[i].1 == None
  {
    if fields == [] then []
    else
      var init := EmptyFields(fields[..|fields| - 1]);
      var r := Set(init, fields[|fields| - 1], None);
      SetKeys(init, fields[|fields| - 1], None);
      EmptyFieldsStayNone(init, fields[|fields| - 1]);
      r
  }

  /** Setting a key to None in a dict whose values are all None keeps them so. */
  lemma {:induction false} EmptyFieldsStayNone(d: FieldMap, k: string)
    requires forall i | 0 <= i < |d| :: d[i].1 == None
    ensures forall i | 0 <= i < |Set(d, k, None)| :: Set(d, k, None)[i].1 == None
  {
    if d != [] && d[0].0 != k {
      EmptyFieldsStayNone(d[1..], k);
      assert Set(d, k, None) == [d[0]] + Set(d[1..], k, None);
    }
  }

  /** Every field name of the list is a key and nothing else is; each maps to None. */
  lemma EmptyFieldsLookup(fields: seq<string>, f: string)
    ensures Get(EmptyFields(fields), f) == if f in fields then Some(None) else None
  {
    var r := EmptyFields(fields);
    GetFindsKeys(r, f);
    if f in fields {
      GetIsSomePair(r, f);
    }
  }

  /** A key that is present is found with the value of one of its pairs. */
  lemma {:induction false} GetIsSomePair<K, V>(d: Dict<K, V>, k: K)
    requires Get(d, k).Some?
    ensures exists i | 0 <= i < |d| :: d[i] == (k, Get(d, k).value)
  {
    if d[0].0 != k {
      GetIsSomePair(d[1..], k);
      var i :| 0 <= i < |d[1..]| && d[1..][i] == (k, Get(d[1..], k).value);
      assert d[i + 1] == d[1..][i];
    } else {
      assert d[0] == (k, Get(d, k).value);
    }
  }

  /** render_form: one section per schema entry, in schema order, each with
      all its fields set to None. */
  method RenderForm(schema: Schema) returns (form: Form)
    requires DistinctKeys(schema)
    ensures |form| == |schema|
    ensures Keys(form) == Keys(schema)
    ensures forall i | 0 <= i < |schema| :: form[i].1 == Section(EmptyFields(schema[i].1))
    ensures DistinctKeys(form)
  {
    form := [];
    for i := 0 to |schema|
      invariant RenderedUpTo(schema, form, i)
    {
      RenderOne(schema, form, i);
      form := Set(form, schema[i].0, Section(EmptyFields(schema[i].1)));
    }
    RenderedAll(schema, form);
  }

  /** The first `i` schema entries, each turned into its section. */
  predicate RenderedUpTo(schema: Schema, form: Form, i: nat) {
    && i <= |schema|
    && |form| == i
    && forall j | 0 <= j < i :: form[j] == (schema[j].0, Section(EmptyFields(schema[j].1)))
  }

  /** Schema keys are distinct, so the next section is new and goes last. */
  lemma RenderOne(schema: Schema, form: Form, i: nat)
    requires DistinctKeys(schema) && RenderedUpTo(schema, form, i) && i < |schema|
    ensures RenderedUpTo(schema, Set(form, schema[i].0, Section(EmptyFields(schema[i].1))), i + 1)
  {
    forall j | 0 <= j < |form| ensures form[j].0 != schema[i].0 {
      assert Keys(schema)[j] != Keys(schema)[i];
    }
    SetFresh(form, schema[i].0, Section(EmptyFields(schema[i].1)));
  }

  /** Once every entry is rendered the form has the schema's keys, each once. */
  lemma RenderedAll(schema: Schema, form: Form)
    requires DistinctKeys(schema) && RenderedUpTo(schema, form, |schema|)
    ensures |form| == |schema|
    ensures Keys(form) == Keys(schema)
    ensures forall i | 0 <= i < |schema| :: form[i].1 == Section(EmptyFields(schema[i].1))
    ensures DistinctKeys(form)
  {
    assert Keys(form) == Keys(schema);
  }

  /** What the user chose: the section order (a required key) and optional
      fields to add (an optional key). */
  datatype Customization = Customization(order: Option<seq<string>>, optionalFields: Option<seq<string>>)

  /** Python's KeyError, with the missing key. */
  datatype KeyError = KeyError(key: string)

  /** Every name in `names` is a section of the form. */
  predicate AllSections(form: Form, names: seq<string>) {
    forall j | 0 <= j < |names| :: HasKey(form, names[j])
  }

  /** `names[j]` is the first name that is not a section of the form. */
  predicate FirstMissing(form: Form, names: seq<string>, j: nat) {
    j < |names| && !HasKey(form, names[j]) && forall i | 0 <= i < j :: HasKey(form, names[i])
  }

  /** `{section: form[section] for section in order}`: the sections named by
      `order`, in order of first mention, each with its value in `form`; the
      first name that is not a section raises KeyError. */
  function Reorder(form: Form, order: seq<string>): (r: Result<Form, KeyError>)
    ensures r.Ok? ==> |r.value| <= |order|
  {
    if order == [] then Ok([])
    else
      var sofar :- Reorder(form, order[..|order| - 1]);
      var section := order[|order| - 1];
      match Get(form, section)
      case None => Err(KeyError(section))
      case Some(value) => Ok(Set(sofar, section, value))
  }

  /** The comprehension succeeds exactly when every name is a section, fails
      with the first name that is not, and on success holds the named
      sections, in order of first mention, with their values in `form`. */
  lemma ReorderSpec(form: Form, order: seq<string>)
    ensures Reorder(form, order).Ok? <==> AllSections(form, order)
    ensures Reorder(form, order).Err? ==>
      exists j | 0 <= j < |order| :: FirstMissing(form, order, j) && Reorder(form, order).error == KeyError(order[j])
    ensures Reorder(form, order).Ok? ==> Keys(Reorder(form, order).value) == Dedup(order)
    ensures Reorder(form, order).Ok? ==>
      forall k :: Get(Reorder(form, order).value, k) == if k in order then Get(form, k) else None
  {
    ReorderSucceeds(form, order);
    ReorderFails(form, order);
    ReorderKeys(form, order);
    ReorderValues(form, order);
  }

  lemma {:induction false} ReorderSucceeds(form: Form, order: seq<string>)
    ensures Reorder(form, order).Ok? <==> AllSections(form, order)
  {
    if order != [] {
      var init := order[..|order| - 1];
      ReorderSucceeds(form, init);
      GetFindsKeys(form, order[|order| - 1]);
      assert forall j | 0 <= j < |init| :: init[j] == order[j];
    }
  }

  lemma {:induction false} ReorderFails(form: Form, order: seq<string>)
    ensures Reorder(form, order).Err? ==>
      exists j | 0 <= j < |order| :: FirstMissing(form, order, j) && Reorder(form, order).error == KeyError(order[j])
  {
    if order != [] {
      var init := order[..|order| - 1];
      var section := order[|order| - 1];
      var sofar := Reorder(form, init);
      if sofar.Err? {
        ReorderFails(form, init);
        var j :| 0 <= j < |init| && FirstMissing(form, init, j) && sofar.error == KeyError(init[j]);
        assert FirstMissing(form, order, j);
      } else if Get(form, section).None? {
        ReorderSucceeds(form, init);
        GetFindsKeys(form, section);
        assert FirstMissing(form, order, |order| - 1);
      }
    }
  }

  lemma {:induction false} ReorderKeys(form: Form, order: seq<string>)
    ensures Reorder(form, order).Ok? ==> Keys(Reorder(form, order).value) == Dedup(order)
  {
    if order != [] {
      var init := order[..|order| - 1];
      var section := order[|order| - 1];
      ReorderKeys(form, init);
      var sofar := Reorder(form, init);
      if sofar.Ok? && Get(form, section).Some? {
        SetKeys(sofar.value, section, Get(form, section).value);
      }
    }
  }

  lemma {:induction false} ReorderValues(form: Form, order: seq<string>)
    ensures Reorder(form, order).Ok? ==>
      forall k :: Get(Reorder(form, order).value, k) == if k in order then Get(form, k) else None
  {
    if order != [] {
      var init := order[..|order| - 1];
      var section := order[|order| - 1];
      ReorderValues(form, init);
      var sofar := Reorder(form, init);
      if sofar.Ok? && Get(form, section).Some? {
        assert forall k :: k in order <==> k in init || k == section;
        SetGet(sofar.value, section, Get(form, section).value);
      }
    }
  }

  /** customize_form_options: a missing `order` key raises KeyError("order");
      otherwise the reordered sections, then each optional field set to None
      (a field that is already a section keeps its place). */
  method CustomizeFormOptions(form: Form, options: Customization) returns (r: Result<Form, KeyError>)
    ensures options.order.None? ==> r == Err(KeyError("order"))
    ensures options.order.Some? ==> (r.Ok? <==> AllSections(form, options.order.value))
    ensures options.order.Some? && r.Err? ==>
      exists j | 0 <= j < |options.order.value| ::
        FirstMissing(form, options.order.value, j) && r.error == KeyError(options.order.value[j])
    ensures r.Ok? ==> Keys(r.value) == Dedup(options.order.value + options.optionalFields.GetOr([]))
    ensures r.Ok? ==> forall k ::
      Get(r.value, k) == if k in options.optionalFields.GetOr([]) then Some(NoneValue)
                         else if k in options.order.value then Get(form, k)
                         else None
  {
    if options.order.None? {
      return Err(KeyError("order"));
    }
    var order := options.order.value;
    ReorderSpec(form, order);
    var reordered :- Reorder(form, order);
    var optional := options.optionalFields.GetOr([]);
    assert OptionalAdded(reordered, form, order, optional[..0]) by {
      assert order + optional[..0] == order;
    }
    for i := 0 to |optional|
      invariant OptionalAdded(reordered, form, order, optional[..i])
    {
      AddOptional(reordered, form, order, optional, i);
      reordered := Set(reordered, optional[i], NoneValue);
    }
    assert optional[..|optional|] == optional;
    OptionalAddedAll(reordered, form, options);
    r := Ok(reordered);
  }

  /** The state of customize_form_options after the optional fields `added`:
      keys in order of first mention across `order` then `added`, each added
      field None, each other named section with its value in `form`. */
  ghost predicate OptionalAdded(reordered: Form, form: Form, order: seq<string>, added: seq<string>) {
    && Keys(reordered) == Dedup(order + added)
    && forall k :: Get(reordered, k) == if k in added then Some(NoneValue)
                                        else if k in order then Get(form, k)
                                        else None
  }

  /** After all optional fields, the description is the method's result. */
  lemma OptionalAddedAll(reordered: Form, form: Form, options: Customization)
    requires options.order.Some?
    requires OptionalAdded(reordered, form, options.order.value, options.optionalFields.GetOr([]))
    ensures Keys(reordered) == Dedup(options.order.value + options.optionalFields.GetOr([]))
    ensures forall k ::
      Get(reordered, k) == if k in options.optionalFields.GetOr([]) then Some(NoneValue)
                           else if k in options.order.value then Get(form, k)
                           else None
  {
  }

  /** Setting one more optional field keeps that description. */
  lemma AddOptional(reordered: Form, form: Form, order: seq<string>, optional: seq<string>, i: nat)
    requires i < |optional| && OptionalAdded(reordered, form, order, optional[..i])
    ensures OptionalAdded(Set(reordered, optional[i], NoneValue), form, order, optional[..i + 1])
  {
    AddOptionalKeys(reordered, order, optional, i);
    AddOptionalValues(reordered, form, order, optional, i);
  }

  lemma AddOptionalKeys(reordered: Form, order: seq<string>, optional: seq<string>, i: nat)
    requires i < |optional| && Keys(reordered) == Dedup(order + optional[..i])
    ensures Keys(Set(reordered, optional[i], NoneValue)) == Dedup(order + optional[..i + 1])
  {
    var all := order + optional[..i + 1];
    assert all[|all| - 1] == optional[i];
    assert all[..|all| - 1] == order + optional[..i];
    assert Dedup(all) == AddKey(Dedup(order + optional[..i]), optional[i]);
    SetKeys(reordered, optional[i], NoneValue);
  }

  lemma AddOptionalValues(reordered: Form, form: Form, order: seq<string>, optional: seq<string>, i: nat)
    requires i < |optional|
    requires forall k :: Get(reordered, k) == if k in optional[..i] then Some(NoneValue)
                                              else if k in order then Get(form, k)
                                              else None
    ensures forall k :: Get(Set(reordered, optional[i], NoneValue), k)
                     == if k in optional[..i + 1] then Some(NoneValue)
                        else if k in order then Get(form, k)
                        else None
  {
    assert optional[..i + 1] == optional[..i] + [optional[i]];
    SetGet(reordered, optional[i], NoneValue);
  }

  /** The order of the reordered sections is the order named, whatever
      optional fields follow. */
  lemma CustomizedOrderFirst(order: seq<string>, optional: seq<string>)
    ensures Dedup(order) <= Dedup(order + optional)
  {
    DedupPrefix(order, optional);
  }

  /** What handle_errors may be given: a validation message or a response
      dictionary. */
  datatype ErrorInput = StrError(message: string) | DictError(entries: Dict<string, string>)

  const ValidationPrefix := "Validation Error: "
  const ApiPrefix := "API Error: "
  const UnknownError := "Unknown error occurred."

  /** handle_errors: the message shown for each kind of error. */
  function HandleErrors(errors: ErrorInput): (message: string)
    ensures errors.StrError? ==> message == ValidationPrefix + errors.message
    ensures errors.DictError? && Get(errors.entries, "error").Some? ==>
      message == ApiPrefix + Get(errors.entries, "error").value
    ensures errors.DictError? && Get(errors.entries, "error").None? ==> message == UnknownError
  {
    match errors
    case StrError(s) => ValidationPrefix + s
    case DictError(d) =>
      match Get(d, "error")
      case Some(e) => ApiPrefix + e
      case None => UnknownError
  }

  /** The three kinds of message cannot be confused: the message tells which
      kind of error it came from, and gives back the validation text or the
      API error verbatim. */
  lemma HandleErrorsClassifies(errors: ErrorInput)
    ensures ValidationPrefix <= HandleErrors(errors) <==> errors.StrError?
    ensures ApiPrefix <= HandleErrors(errors) <==> errors.DictError? && HasKey(errors.entries, "error")
    ensures HandleErrors(errors) == UnknownError <==> errors.DictError? && !HasKey(errors.entries, "error")
    ensures errors.StrError? ==> HandleErrors(errors)[|ValidationPrefix|..] == errors.message
    ensures errors.DictError? && Get(errors.entries, "error").Some? ==>
      HandleErrors(errors)[|ApiPrefix|..] == Get(errors.entries, "error").value
  {
    var m := HandleErrors(errors);
    if errors.DictError? {
      GetFindsKeys(errors.entries, "error");
    }
    if errors.StrError? {
      assert m[0] == 'V';
    } else if Get(errors.entries, "error").Some? {
      assert m[0] == 'A';
    } else {
      assert m[0] == 'U';
    }
  }
}
