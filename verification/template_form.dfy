/** The new-message-template form
    (`src/components/messaging/MessageTemplateForm.js`): a name, a category,
    a message body, and a list of variable names that can be added, removed,
    and inserted into the body as `{{name}}` placeholders. */
module TemplateForm {
  import opened Seqs

  /** `formData`. */
  datatype Draft = Draft(name: string, category: string, content: string, variables: seq<string>)

  /** The component's state: the draft and the "Add variable name" input. */
  datatype FormState = FormState(draft: Draft, newVariable: string)

  const InitialState := FormState(Draft("", "", "", []), "")

  /** The `name` attributes of the inputs `handleChange` serves. */
  datatype Field = Name | Category | Content

  /** `handleChange`: the named text field takes the new value; the other
      text fields, the variables and the pending variable name are kept. */
  function HandleChange(s: FormState, f: Field, v: string): (r: FormState)
    ensures f == Name ==> r.draft.name == v
    ensures f == Category ==> r.draft.category == v
    ensures f == Content ==> r.draft.content == v
    ensures f != Name ==> r.draft.name == s.draft.name
    ensures f != Category ==> r.draft.category == s.draft.category
    ensures f != Content ==> r.draft.content == s.draft.content
    ensures r.draft.variables == s.draft.variables && r.newVariable == s.newVariable
  {
    match f
    case Name => s.(draft := s.draft.(name := v))
    case Category => s.(draft := s.draft.(category := v))
    case Content => s.(draft := s.draft.(content := v))
  }

  /** The "Add variable name" input's `onChange`. */
  function SetNewVariable(s: FormState, v: string): (r: FormState)
    ensures r.newVariable == v && r.draft == s.draft
  {
    s.(newVariable := v)
  }

  /** `addVariable`: a non-empty name not yet in the list is appended and
      the input is cleared; anything else changes nothing. The list stays
      free of duplicates, and the text fields are never touched. */
  function AddVariable(s: FormState): (r: FormState)
    ensures var v := s.newVariable; var vars := s.draft.variables;
      v != "" && v !in vars ==> r.draft.variables == vars + [v] && r.newVariable == ""
    ensures s.newVariable == "" || s.newVariable in s.draft.variables ==> r == s
    ensures NoDup(s.draft.variables) ==> NoDup(r.draft.variables)
    ensures r.draft.name == s.draft.name && r.draft.category == s.draft.category
    ensures r.draft.content == s.draft.content
  {
    var v := s.newVariable;
    if v != "" && v !in s.draft.variables then
      FormState(s.draft.(variables := s.draft.variables + [v]), "")
    else
      s
  }

  /** `variables.filter(v => v !== variable)`. */
  function Without(vars: seq<string>, variable: string): (r: seq<string>)
    ensures variable !in r
    ensures forall i :: 0 <= i < |vars| && vars[i] != variable ==> vars[i] in r
    ensures forall i :: 0 <= i < |r| ==> r[i] in vars
    ensures SubsequenceOf(r, vars)
  {
    FilterIsSubsequence(w => w != variable, vars);
    Filter(w => w != variable, vars)
  }

  /** `removeVariable`: the variable is gone, every other variable is kept
      in its order, and nothing but the list changes. */
  function RemoveVariable(s: FormState, variable: string): (r: FormState)
    ensures r.draft.variables == Without(s.draft.variables, variable)
    ensures variable !in r.draft.variables
    ensures r.draft.name == s.draft.name && r.draft.category == s.draft.category
    ensures r.draft.content == s.draft.content && r.newVariable == s.newVariable
  {
    s.(draft := s.draft.(variables := Without(s.draft.variables, variable)))
  }

  /** Removing a variable that is not in the list changes nothing. */
  lemma RemoveAbsentVariable(s: FormState, variable: string)
    requires variable !in s.draft.variables
    ensures RemoveVariable(s, variable) == s
  {
    FilterKeepsAll(w => w != variable, s.draft.variables);
  }

  /** In a duplicate-free list, removing the variable at position `i` closes
      the gap: the elements before and after it are kept as they were. */
  lemma RemoveVariableAt(vars: seq<string>, i: int)
    requires NoDup(vars) && 0 <= i < |vars|
    ensures Without(vars, vars[i]) == vars[..i] + vars[i + 1..]
  {
    var v, before, after := vars[i], vars[..i], vars[i + 1..];
    assert vars == before + [v] + after;
    forall k | 0 <= k < |before| ensures before[k] != v {
      assert before[k] == vars[k];
    }
    forall k | 0 <= k < |after| ensures after[k] != v {
      assert after[k] == vars[i + 1 + k];
    }
    FilterRemoveOne(w => w != v, before, v, after);
  }

  /** Removing keeps the list free of duplicates. */
  lemma RemoveVariableKeepsNoDup(s: FormState, variable: string)
    ensures NoDup(s.draft.variables) ==> NoDup(RemoveVariable(s, variable).draft.variables)
  {
    if NoDup(s.draft.variables) {
      FilterNoDup(w => w != variable, s.draft.variables);
    }
  }

  /** Adding a fresh variable and then removing it restores the list. */
  lemma AddThenRemove(s: FormState)
    requires s.newVariable != "" && s.newVariable !in s.draft.variables
    ensures RemoveVariable(AddVariable(s), s.newVariable).draft.variables == s.draft.variables
  {
    var v := s.newVariable;
    var p := w => w != v;
    FilterConcat(p, s.draft.variables, [v]);
    FilterKeepsAll(p, s.draft.variables);
    assert Filter(p, [v]) == [];
  }

  /** The text `insertVariable` puts into the body. */
  function Placeholder(variable: string): (t: string)
    ensures |t| == |variable| + 4
  {
    "{{" + variable + "}}"
  }

  /** `insertVariable` with the textarea's `selectionStart` as `cursor`:
      the placeholder goes in at the cursor (a cursor past the end counts as
      the end, as `substring` clamps it). Removing the placeholder again
      gives back the old body; only the body changes. */
  function InsertVariable(s: FormState, variable: string, cursor: nat): (r: FormState)
    ensures |r.draft.content| == |s.draft.content| + |variable| + 4
    ensures var c := if cursor <= |s.draft.content| then cursor else |s.draft.content|;
      && r.draft.content[..c] == s.draft.content[..c]
      && r.draft.content[c..c + |variable| + 4] == Placeholder(variable)
      && r.draft.content[c + |variable| + 4..] == s.draft.content[c..]
    ensures r.draft.name == s.draft.name && r.draft.category == s.draft.category
    ensures r.draft.variables == s.draft.variables && r.newVariable == s.newVariable
  {
    var content := s.draft.content;
    var c := if cursor <= |content| then cursor else |content|;
    var updated := content[..c] + Placeholder(variable) + content[c..];
    assert updated[..c] == content[..c];
    assert updated[c..c + |variable| + 4] == Placeholder(variable);
    assert updated[c + |variable| + 4..] == content[c..];
    s.(draft := s.draft.(content := updated))
  }

  /** Cutting the placeholder back out of the body restores it. */
  lemma InsertVariableRoundTrip(s: FormState, variable: string, cursor: nat)
    requires cursor <= |s.draft.content|
    ensures var t := InsertVariable(s, variable, cursor).draft.content;
      t[..cursor] + t[cursor + |variable| + 4..] == s.draft.content
  {
    var t := InsertVariable(s, variable, cursor).draft.content;
    assert s.draft.content == s.draft.content[..cursor] + s.draft.content[cursor..];
  }

  /** The edits the form offers, one per event handler. */
  datatype Edit =
    | ChangeField(field: Field, value: string)
    | TypeVariable(value: string)
    | AddTyped
    | RemoveNamed(variable: string)
    | InsertNamed(variable: string, cursor: nat)

  /** The form after one edit. */
  function Apply(s: FormState, e: Edit): (r: FormState)
    ensures NoDup(s.draft.variables) ==> NoDup(r.draft.variables)
  {
    match e
    case ChangeField(f, v) => HandleChange(s, f, v)
    case TypeVariable(v) => SetNewVariable(s, v)
    case AddTyped => AddVariable(s)
    case RemoveNamed(v) => RemoveVariableKeepsNoDup(s, v); RemoveVariable(s, v)
    case InsertNamed(v, c) => InsertVariable(s, v, c)
  }

  /** The form after a run of edits, first to last. */
  function Run(s: FormState, edits: seq<Edit>): FormState
    decreases |edits|
  {
    if edits == [] then s else Run(Apply(s, edits[0]), edits[1..])
  }

  /** However the user edits a fresh form, its variable list never holds a
      name twice. */
  lemma {:induction false} RunKeepsNoDup(s: FormState, edits: seq<Edit>)
    requires NoDup(s.draft.variables)
    ensures NoDup(Run(s, edits).draft.variables)
    decreases |edits|
  {
    if edits != [] {
      RunKeepsNoDup(Apply(s, edits[0]), edits[1..]);
    }
  }

  /** The fresh form's empty list is duplicate-free, so every form reachable
      from it is. */
  lemma ReachableFormsHaveNoDup(edits: seq<Edit>)
    ensures NoDup(Run(InitialState, edits).draft.variables)
  {
    RunKeepsNoDup(InitialState, edits);
  }
}
