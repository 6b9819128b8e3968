/**
 * The Ollama model settings form: the configured models, the installed
 * models not yet configured, and the create and edit flows. Each handler
 * is a method on the component's state; a submit that awaits the service
 * is split into the part before the call, which returns the request, and
 * the part after it, which takes the service's answer (`None` when the
 * call failed).
 */
module ModelSettings {
  import opened Wrappers
  import opened Strings

  /**
   * A model as the service returns it. The flags are booleans, a missing
   * flag read as false; `details` is carried along without being looked
   * into.
   */
  datatype OllamaModel = OllamaModel(
    id: Option<string>,
    name: Option<string>,
    model: Option<string>,
    censored: bool,
    embedding: bool,
    tools: bool,
    vision: bool,
    details: Option<string>,
    size: Option<int>)

  /** `formData`: the fields of the form; `None` is a field the object does not have. */
  datatype FormData = FormData(
    name: Option<string>,
    model: Option<string>,
    censored: bool,
    embedding: bool,
    tools: bool,
    vision: bool,
    details: Option<string>,
    size: Option<int>)

  /** The form's inputs: the name text box and four checkboxes. */
  datatype Field = NameField | Censored | Embedding | Tools | Vision

  /** `a || fallback` for an optional string. */
  function Either(a: Option<string>, fallback: string): (r: string)
    ensures Truthy(a) ==> r == a.value
    ensures !Truthy(a) ==> r == fallback
  {
    if Truthy(a) then a.value else fallback
  }

  /** The form a fresh component starts with (no `model` field). */
  const InitialForm := FormData(Some(""), None, false, false, false, false, None, None)

  /** The cleared form of the create flow (with an empty `model`). */
  const BlankForm := FormData(Some(""), Some(""), false, false, false, false, None, None)

  // ---------------------------------------------------------------------
  // Installed models not yet configured

  /** `models.map(model => model.model)`. */
  function ConfiguredModels(models: seq<OllamaModel>): (r: seq<Option<string>>)
    ensures |r| == |models|
    ensures forall i :: 0 <= i < |models| ==> r[i] == models[i].model
  {
    seq(|models|, i requires 0 <= i < |models| => models[i].model)
  }

  /** `installedModels.filter(model => !configuredModelNames.includes(model.model))`. */
  function Available(installed: seq<OllamaModel>, models: seq<OllamaModel>): (r: seq<OllamaModel>)
    ensures |r| <= |installed|
  {
    if installed == [] then []
    else
      var init, last := installed[..|installed| - 1], installed[|installed| - 1];
      Available(init, models) + (if last.model in ConfiguredModels(models) then [] else [last])
  }

  /** An installed model is offered exactly when no configured model has its `model` value. */
  lemma {:induction false} AvailableMembers(installed: seq<OllamaModel>, models: seq<OllamaModel>)
    ensures forall m :: m in Available(installed, models) <==>
      m in installed && forall c :: c in models ==> c.model != m.model
  {
    if installed != [] {
      var init, last := installed[..|installed| - 1], installed[|installed| - 1];
      assert installed == init + [last];
      AvailableMembers(init, models);
      var names := ConfiguredModels(models);
      if last.model in names {
        var i :| 0 <= i < |names| && names[i] == last.model;
        assert models[i] in models;
      } else {
        forall c | c in models ensures c.model != last.model {
          var i :| 0 <= i < |models| && models[i] == c;
          assert names[i] == c.model;
        }
      }
    }
  }

  /** Filtering keeps the installed order: filtering a concatenation filters each side. */
  lemma {:induction false} AvailableAppend(a: seq<OllamaModel>, b: seq<OllamaModel>, models: seq<OllamaModel>)
    ensures Available(a + b, models) == Available(a, models) + Available(b, models)
  {
    if b == [] {
      assert a + b == a;
    } else {
      var init, last := b[..|b| - 1], b[|b| - 1];
      assert a + b == (a + init) + [last];
      assert (a + b)[..|a + b| - 1] == a + init;
      AvailableAppend(a, init, models);
    }
  }

  /** `installedModels.find(model => model.name === name)`: the first installed model with that name. */
  function FindByName(installed: seq<OllamaModel>, name: string): (r: Option<OllamaModel>)
    ensures r.Some? ==> r.value in installed && r.value.name == Some(name)
    ensures r.None? <==> forall m :: m in installed ==> m.name != Some(name)
  {
    if installed == [] then None
    else if installed[0].name == Some(name) then Some(installed[0])
    else
      var r := FindByName(installed[1..], name);
      assert forall m :: m in installed ==> m == installed[0] || m in installed[1..];
      r
  }

  /** The model found is the first of that name: every earlier one has another name. */
  lemma {:induction false} FindByNameFirst(installed: seq<OllamaModel>, name: string, i: nat)
    requires i < |installed| && installed[i].name == Some(name)
    ensures FindByName(installed, name).Some?
    ensures exists j :: (0 <= j <= i && FindByName(installed, name).value == installed[j]
      && forall k :: 0 <= k < j ==> installed[k].name != Some(name))
  {
    if installed[0].name != Some(name) {
      FindByNameFirst(installed[1..], name, i - 1);
      var j :| 0 <= j <= i - 1 && FindByName(installed[1..], name).value == installed[1..][j]
        && forall k :: 0 <= k < j ==> installed[1..][k].name != Some(name);
      assert FindByName(installed, name).value == installed[j + 1];
      forall k | 0 <= k < j + 1 ensures installed[k].name != Some(name) {
        if k > 0 {
          assert installed[k] == installed[1..][k - 1];
        }
      }
    }
  }

  // ---------------------------------------------------------------------
  // Form data

  /** The form filled from an installed model: its `model` value as both name and model. */
  function FormFromInstalled(m: OllamaModel): (f: FormData)
    ensures f.name == f.model == Some(Either(m.model, ""))
  {
    var modelName := Either(m.model, "");
    FormData(Some(modelName), Some(modelName), m.censored, m.embedding, m.tools, m.vision, None, None)
  }

  /** The form `handleEditClick` fills from the selected model. */
  function FormFromSelected(m: OllamaModel): (f: FormData)
    ensures f.name == m.name && f.model.None? && f.details == m.details
  {
    FormData(m.name, None, m.censored, m.embedding, m.tools, m.vision, m.details, None)
  }

  /** The form after a model was created. */
  function FormFromCreated(m: OllamaModel): (f: FormData)
    ensures f.name == Some(Either(m.name, "")) && f.model == Some(Either(m.model, ""))
  {
    FormData(Some(Either(m.name, "")), Some(Either(m.model, "")), m.censored, m.embedding, m.tools, m.vision, m.details, None)
  }

  /** The form after a model was updated. */
  function FormFromUpdated(m: OllamaModel): (f: FormData)
    ensures f.name == m.name && f.model.None? && f.details == m.details && f.size == m.size
  {
    FormData(m.name, None, m.censored, m.embedding, m.tools, m.vision, m.details, m.size)
  }

  /** The state of one checkbox. */
  function Checked(f: FormData, field: Field): bool {
    match field
    case Censored => f.censored
    case Embedding => f.embedding
    case Tools => f.tools
    case Vision => f.vision
    case NameField => false
  }

  /**
   * `{...formData, [field]: type === 'checkbox' ? checked : value}`, with
   * `model` following `name` when the name is edited.
   */
  function ChangedForm(f: FormData, field: Field, value: string, checked: bool): (g: FormData)
    ensures g.details == f.details && g.size == f.size
    ensures field == NameField ==> g.name == g.model == Some(value)
    ensures field != NameField ==> g.name == f.name && g.model == f.model
  {
    match field
    case NameField => f.(name := Some(value), model := Some(value))
    case Censored => f.(censored := checked)
    case Embedding => f.(embedding := checked)
    case Tools => f.(tools := checked)
    case Vision => f.(vision := checked)
  }

  /** A checkbox takes the new state, and every other checkbox keeps its own. */
  lemma ChangedFormCheckboxes(f: FormData, field: Field, value: string, checked: bool, other: Field)
    requires other != NameField
    ensures Checked(ChangedForm(f, field, value, checked), other) == if other == field then checked else Checked(f, other)
  {
  }

  /**
   * The model the create flow sends: the name, or `""`, and the form's
   * `model`, else the name; `None` when the name is empty, which alerts
   * instead.
   */
  function CreateData(f: FormData): (r: Option<FormData>)
    ensures r.None? <==> !Truthy(f.name)
    ensures r.Some? ==> r.value.name == f.name && Truthy(r.value.model)
    ensures r.Some? ==> r.value.model == Some(Either(f.model, f.name.value))
    ensures r.Some? ==> r.value == f.(model := r.value.model)
  {
    var name := Either(f.name, "");
    var model := Either(f.model, Either(f.name, ""));
    var data := f.(name := Some(name), model := Some(model));
    if name == "" then None
    else
      var forced := if model == "" then data.(model := data.name) else data;
      Some(forced)
  }

  /**
   * The model the edit flow sends: the form with `model` set to the name,
   * the selected model's details when it has them, and its size; `None`
   * when the name is empty, which alerts instead.
   */
  function UpdateData(f: FormData, selected: OllamaModel): (r: Option<FormData>)
    ensures r.None? <==> !Truthy(f.name)
    ensures r.Some? ==> r.value.name == r.value.model == f.name
    ensures r.Some? ==> r.value.details == (if selected.details.Some? then selected.details else f.details)
    ensures r.Some? ==> r.value.size == selected.size
  {
    var data := f.(model := f.name, details := if selected.details.Some? then selected.details else f.details, size := selected.size);
    if !Truthy(data.name) then None
    else if !Truthy(data.model) then Some(data.(model := data.name))
    else Some(data)
  }

  /** `models.map(model => model.id === updated.id ? updated : model)`. */
  function ReplaceById(models: seq<OllamaModel>, updated: OllamaModel): (r: seq<OllamaModel>)
    ensures |r| == |models|
  {
    seq(|models|, i requires 0 <= i < |models| => if models[i].id == updated.id then updated else models[i])
  }

  /**
   * Replacing keeps every position and every id: the entries with the
   * updated id become the updated model, all others stay as they were.
   */
  lemma ReplaceByIdEffect(models: seq<OllamaModel>, updated: OllamaModel)
    ensures forall i :: 0 <= i < |models| ==> ReplaceById(models, updated)[i].id == models[i].id
    ensures forall i :: 0 <= i < |models| && models[i].id != updated.id ==> ReplaceById(models, updated)[i] == models[i]
    ensures updated in ReplaceById(models, updated) <==> updated in models || exists i :: 0 <= i < |models| && models[i].id == updated.id
  {
    var r := ReplaceById(models, updated);
    if updated in models {
      var i :| 0 <= i < |models| && models[i] == updated;
      assert r[i] == updated;
    }
    if exists i :: 0 <= i < |models| && models[i].id == updated.id {
      var i :| 0 <= i < |models| && models[i].id == updated.id;
      assert r[i] == updated;
    }
  }

  /** What a submit sends: nothing (an alert, or neither flow open), a new model, or an update of the model with an id. */
  datatype Request = NoRequest | Create(data: FormData) | Update(id: Option<string>, data: FormData)

  // ---------------------------------------------------------------------
  // The component

  class Settings {
    var models: seq<OllamaModel>
    var installedModels: seq<OllamaModel>
    var availableInstalledModels: seq<OllamaModel>
    var selectedModel: Option<OllamaModel>
    var selectedInstalledModel: string
    var isEditing: bool
    var isCreating: bool
    var formData: FormData

    /** The form is never in the edit and the create flow at once. */
    predicate Valid()
      reads this
    {
      !(isEditing && isCreating)
    }

    constructor()
      ensures Valid()
      ensures models == [] && installedModels == [] && availableInstalledModels == []
      ensures selectedModel.None? && selectedInstalledModel == "" && !isEditing && !isCreating
      ensures formData == InitialForm
    {
      models := [];
      installedModels := [];
      availableInstalledModels := [];
      selectedModel := None;
      selectedInstalledModel := "";
      isEditing := false;
      isCreating := false;
      formData := InitialForm;
    }

    /**
     * `fetchModels` once the service has answered: `None` is a failed call
     * or an answer that is not a list, both read as no models. The first
     * model is selected when there is one and nothing is selected yet.
     */
    method ModelsFetched(answer: Option<seq<OllamaModel>>)
      modifies this
      ensures models == answer.GetOr([])
      ensures old(selectedModel).None? && |models| > 0 ==> selectedModel == Some(models[0])
      ensures old(selectedModel).Some? || |models| == 0 ==> selectedModel == old(selectedModel)
      ensures installedModels == old(installedModels) && availableInstalledModels == old(availableInstalledModels)
      ensures selectedInstalledModel == old(selectedInstalledModel) && formData == old(formData)
      ensures isEditing == old(isEditing) && isCreating == old(isCreating)
    {
      models := answer.GetOr([]);
      if |models| > 0 && selectedModel.None? {
        selectedModel := Some(models[0]);
      }
    }

    /** `fetchInstalledModels` once the service has answered: a failed call or an answer that is not a list is no models. */
    method InstalledModelsFetched(answer: Option<seq<OllamaModel>>)
      modifies this
      ensures installedModels == answer.GetOr([])
      ensures models == old(models) && availableInstalledModels == old(availableInstalledModels)
      ensures selectedModel == old(selectedModel) && selectedInstalledModel == old(selectedInstalledModel)
      ensures formData == old(formData) && isEditing == old(isEditing) && isCreating == old(isCreating)
    {
      installedModels := answer.GetOr([]);
    }

    /** The effect that recomputes the offered installed models, only when both lists are non-empty. */
    method RefreshAvailable()
      modifies this
      ensures |installedModels| > 0 && |models| > 0 ==> availableInstalledModels == Available(installedModels, models)
      ensures !(|installedModels| > 0 && |models| > 0) ==> availableInstalledModels == old(availableInstalledModels)
      ensures models == old(models) && installedModels == old(installedModels)
      ensures selectedModel == old(selectedModel) && selectedInstalledModel == old(selectedInstalledModel)
      ensures isEditing == old(isEditing) && isCreating == old(isCreating) && formData == old(formData)
    {
      if |installedModels| > 0 && |models| > 0 {
        availableInstalledModels := Available(installedModels, models);
      }
    }

    /** `handleSelectModel`: select the model and leave both flows. */
    method SelectModel(model: OllamaModel)
      modifies this
      ensures Valid()
      ensures selectedModel == Some(model) && !isEditing && !isCreating
      ensures models == old(models) && installedModels == old(installedModels)
      ensures availableInstalledModels == old(availableInstalledModels)
      ensures selectedInstalledModel == old(selectedInstalledModel) && formData == old(formData)
    {
      selectedModel := Some(model);
      isEditing := false;
      isCreating := false;
    }

    /** `handleEditClick`: fill the form from the selected model and enter the edit flow. */
    method EditClick()
      requires selectedModel.Some?
      modifies this
      ensures Valid()
      ensures formData == FormFromSelected(old(selectedModel).value)
      ensures isEditing && !isCreating
      ensures selectedModel == old(selectedModel) && models == old(models) && installedModels == old(installedModels)
      ensures availableInstalledModels == old(availableInstalledModels) && selectedInstalledModel == old(selectedInstalledModel)
    {
      formData := FormFromSelected(selectedModel.value);
      isEditing := true;
      isCreating := false;
    }

    /** `handleCreateClick`: a blank form, no installed pick, no selection, in the create flow. */
    method CreateClick()
      modifies this
      ensures Valid()
      ensures formData == BlankForm && selectedInstalledModel == "" && selectedModel.None?
      ensures isCreating && !isEditing
      ensures models == old(models) && installedModels == old(installedModels)
      ensures availableInstalledModels == old(availableInstalledModels)
    {
      formData := BlankForm;
      selectedInstalledModel := "";
      isCreating := true;
      isEditing := false;
      selectedModel := None;
    }

    /**
     * `handleInstalledModelSelect`: remember the pick; a pick that names
     * an installed model fills the form from it, one that names none
     * leaves the form alone, and no pick clears the form.
     */
    method InstalledModelSelect(value: string)
      requires Valid()
      modifies this
      ensures Valid()
      ensures selectedInstalledModel == value
      ensures value == "" ==> formData == BlankForm
      ensures value != "" && FindByName(old(installedModels), value).Some? ==>
        formData == FormFromInstalled(FindByName(old(installedModels), value).value)
      ensures value != "" && FindByName(old(installedModels), value).None? ==> formData == old(formData)
      ensures models == old(models) && installedModels == old(installedModels)
      ensures availableInstalledModels == old(availableInstalledModels) && selectedModel == old(selectedModel)
      ensures isEditing == old(isEditing) && isCreating == old(isCreating)
    {
      selectedInstalledModel := value;
      if value != "" {
        var found := FindByName(installedModels, value);
        if found.Some? {
          formData := FormFromInstalled(found.value);
        }
      } else {
        formData := BlankForm;
      }
    }

    /**
     * `handleInputChange`: while creating from an installed model the
     * name is read-only; otherwise the field takes the new value.
     */
    method InputChange(field: Field, value: string, checked: bool)
      requires Valid()
      modifies this
      ensures Valid()
      ensures old(isCreating) && old(selectedInstalledModel) != "" && field == NameField ==> formData == old(formData)
      ensures !(old(isCreating) && old(selectedInstalledModel) != "" && field == NameField) ==>
        formData == ChangedForm(old(formData), field, value, checked)
      ensures models == old(models) && installedModels == old(installedModels)
      ensures availableInstalledModels == old(availableInstalledModels) && selectedModel == old(selectedModel)
      ensures selectedInstalledModel == old(selectedInstalledModel)
      ensures isEditing == old(isEditing) && isCreating == old(isCreating)
    {
      if isCreating && selectedInstalledModel != "" && field == NameField {
        return;
      }
      formData := ChangedForm(formData, field, value, checked);
    }

    /**
     * `handleSubmit` up to the service call: in the create flow send the
     * create data, in the edit flow with a selection send the update, and
     * alert on an empty name; with neither flow open, leave both flows at
     * once.
     */
    method Submit() returns (request: Request)
      requires Valid()
      modifies this
      ensures Valid()
      ensures old(isCreating) ==> request == (if CreateData(old(formData)).Some? then Create(CreateData(old(formData)).value) else NoRequest)
      ensures !old(isCreating) && old(isEditing) && old(selectedModel).Some? ==>
        request == (if UpdateData(old(formData), old(selectedModel).value).Some?
                    then Update(old(selectedModel).value.id, UpdateData(old(formData), old(selectedModel).value).value)
                    else NoRequest)
      ensures request.NoRequest? && (old(isCreating) || (old(isEditing) && old(selectedModel).Some?)) ==>
        isCreating == old(isCreating) && isEditing == old(isEditing)
      ensures request.Create? || request.Update? ==> isCreating == old(isCreating) && isEditing == old(isEditing)
      ensures !old(isCreating) && !(old(isEditing) && old(selectedModel).Some?) ==>
        request.NoRequest? && !isEditing && !isCreating
      ensures models == old(models) && installedModels == old(installedModels) && formData == old(formData)
      ensures availableInstalledModels == old(availableInstalledModels) && selectedModel == old(selectedModel)
      ensures selectedInstalledModel == old(selectedInstalledModel)
    {
      if isCreating {
        var data := CreateData(formData);
        if data.None? {
          return NoRequest;
        }
        request := Create(data.value);
      } else if isEditing && selectedModel.Some? {
        var data := UpdateData(formData, selectedModel.value);
        if data.None? {
          return NoRequest;
        }
        request := Update(selectedModel.value.id, data.value);
      } else {
        request := NoRequest;
        isEditing := false;
        isCreating := false;
      }
    }

    /** After `createModel`: append the new model, select it, fill the form from it, and leave both flows; on failure only alert. */
    method CreateSettled(created: Option<OllamaModel>)
      requires Valid()
      modifies this
      ensures Valid()
      ensures created.None? ==> unchanged(this)
      ensures created.Some? ==>
        models == old(models) + [created.value] && selectedModel == created
        && formData == FormFromCreated(created.value) && !isEditing && !isCreating
      ensures installedModels == old(installedModels) && availableInstalledModels == old(availableInstalledModels)
      ensures selectedInstalledModel == old(selectedInstalledModel)
    {
      if created.None? {
        return;
      }
      models := models + [created.value];
      selectedModel := created;
      formData := FormFromCreated(created.value);
      isEditing := false;
      isCreating := false;
    }

    /** After `updateModel`: replace the entry with the updated id, select it, fill the form from it, and leave both flows; on failure only alert. */
    method UpdateSettled(updated: Option<OllamaModel>)
      requires Valid()
      modifies this
      ensures Valid()
      ensures updated.None? ==> unchanged(this)
      ensures updated.Some? ==>
        models == ReplaceById(old(models), updated.value) && selectedModel == updated
        && formData == FormFromUpdated(updated.value) && !isEditing && !isCreating
      ensures installedModels == old(installedModels) && availableInstalledModels == old(availableInstalledModels)
      ensures selectedInstalledModel == old(selectedInstalledModel)
    {
      if updated.None? {
        return;
      }
      models := ReplaceById(models, updated.value);
      selectedModel := updated;
      formData := FormFromUpdated(updated.value);
      isEditing := false;
      isCreating := false;
    }

    /** `handleCancel`: leave both flows, nothing else. */
    method Cancel()
      modifies this
      ensures Valid()
      ensures !isEditing && !isCreating
      ensures models == old(models) && installedModels == old(installedModels) && formData == old(formData)
      ensures availableInstalledModels == old(availableInstalledModels) && selectedModel == old(selectedModel)
      ensures selectedInstalledModel == old(selectedInstalledModel)
    {
      isEditing := false;
      isCreating := false;
    }
  }
}
