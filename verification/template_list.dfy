/** The message-template list
    (`src/components/messaging/MessageTemplateList.js`): the three filters
    (search text, category, status) applied to the template list, and the
    status-colour and category-icon lookups. */
module TemplateList {
  import opened Text
  import opened Seqs

  /** The fields of a template the list filters or displays by. */
  datatype Template = Template(
    id: int,
    name: string,
    category: string,
    content: string,
    variables: seq<string>,
    status: string)

  /** `searchTerm`, `selectedCategory` and `selectedStatus`. */
  datatype Filters = Filters(searchTerm: string, category: string, status: string)

  const InitialFilters := Filters("", "", "")

  const AllCategories := "All Categories"
  const AllStatuses := "All Status"

  /** The search term occurs in the name or in the body, ignoring ASCII case. */
  predicate MatchesSearch(t: Template, term: string) {
    Contains(ToLower(t.name), ToLower(term)) || Contains(ToLower(t.content), ToLower(term))
  }

  /** No selection, or the "All Categories" entry, admits every category;
      otherwise the category must be the selected one. */
  predicate MatchesCategory(t: Template, selected: string) {
    selected == "" || selected == AllCategories || t.category == selected
  }

  /** No selection, or the "All Status" entry, admits every status;
      otherwise the status must be the selection in lower case. */
  predicate MatchesStatus(t: Template, selected: string) {
    selected == "" || selected == AllStatuses || t.status == ToLower(selected)
  }

  predicate Visible(t: Template, f: Filters) {
    MatchesSearch(t, f.searchTerm) && MatchesCategory(t, f.category) && MatchesStatus(t, f.status)
  }

  /** `filteredTemplates`: the templates that pass all three filters, in
      list order. */
  function FilteredTemplates(templates: seq<Template>, f: Filters): (r: seq<Template>)
    ensures SubsequenceOf(r, templates)
    ensures forall i :: 0 <= i < |r| ==> Visible(r[i], f)
    ensures forall i :: 0 <= i < |templates| ==> (templates[i] in r <==> Visible(templates[i], f))
  {
    FilterIsSubsequence(t => Visible(t, f), templates);
    Filter(t => Visible(t, f), templates)
  }

  /** A template is listed exactly when the search matches, the category
      selection is empty, "All Categories" or its own category, and the
      status selection is empty, "All Status" or its own status up to case. */
  lemma ListedIff(templates: seq<Template>, f: Filters, i: int)
    requires 0 <= i < |templates|
    ensures var t := templates[i];
      t in FilteredTemplates(templates, f) <==>
        && MatchesSearch(t, f.searchTerm)
        && (f.category in {"", AllCategories} || t.category == f.category)
        && (f.status in {"", AllStatuses} || t.status == ToLower(f.status))
  {
  }

  /** An empty search term matches every template. */
  lemma EmptySearchMatchesAll(t: Template)
    ensures MatchesSearch(t, "")
  {
    ContainsEmpty(ToLower(t.name));
  }

  /** With the filters the list starts with, every template is shown, in
      order. */
  lemma InitialFiltersShowAll(templates: seq<Template>)
    ensures FilteredTemplates(templates, InitialFilters) == templates
  {
    forall i | 0 <= i < |templates| ensures Visible(templates[i], InitialFilters) {
      EmptySearchMatchesAll(templates[i]);
    }
    FilterKeepsAll(t => Visible(t, InitialFilters), templates);
  }

  /** Choosing "All Categories" filters exactly like choosing no category,
      and "All Status" exactly like no status. */
  lemma AllEntriesImposeNothing(templates: seq<Template>, f: Filters)
    ensures FilteredTemplates(templates, f.(category := AllCategories))
         == FilteredTemplates(templates, f.(category := ""))
    ensures FilteredTemplates(templates, f.(status := AllStatuses))
         == FilteredTemplates(templates, f.(status := ""))
  {
    var fa, fn := f.(category := AllCategories), f.(category := "");
    forall i | 0 <= i < |templates| ensures Visible(templates[i], fa) == Visible(templates[i], fn) {
    }
    FilterAgree(t => Visible(t, fa), t => Visible(t, fn), templates);
    var sa, sn := f.(status := AllStatuses), f.(status := "");
    forall i | 0 <= i < |templates| ensures Visible(templates[i], sa) == Visible(templates[i], sn) {
    }
    FilterAgree(t => Visible(t, sa), t => Visible(t, sn), templates);
  }

  /** The search ignores case: upper- and lower-case spellings of a term
      select the same templates. */
  lemma SearchIgnoresCase(templates: seq<Template>, f: Filters)
    ensures FilteredTemplates(templates, f.(searchTerm := ToLower(f.searchTerm)))
         == FilteredTemplates(templates, f)
  {
    var g := f.(searchTerm := ToLower(f.searchTerm));
    ToLowerIdempotent(f.searchTerm);
    forall i | 0 <= i < |templates| ensures Visible(templates[i], g) == Visible(templates[i], f) {
    }
    FilterAgree(t => Visible(t, g), t => Visible(t, f), templates);
  }

  /** Selecting a particular category can only narrow the list shown with
      no category selected, and keeps its order. */
  lemma CategoryNarrows(templates: seq<Template>, f: Filters)
    ensures SubsequenceOf(FilteredTemplates(templates, f), FilteredTemplates(templates, f.(category := "")))
  {
    var g := f.(category := "");
    forall i | 0 <= i < |templates| ensures Visible(templates[i], f) ==> Visible(templates[i], g) {
    }
    FilterNarrows(t => Visible(t, f), t => Visible(t, g), templates);
  }

  const DefaultStatusColor := "#718096"

  /** `getStatusColor`: green, amber and red for the three known statuses,
      grey for anything else. */
  function StatusColor(status: string): (color: string)
    ensures color == DefaultStatusColor <==> status !in {"active", "draft", "inactive"}
    ensures color in {"#25d366", "#ffd89b", "#ff6b6b", DefaultStatusColor}
    ensures status == "active" ==> color == "#25d366"
    ensures status == "draft" ==> color == "#ffd89b"
    ensures status == "inactive" ==> color == "#ff6b6b"
  {
    if status == "active" then "#25d366"
    else if status == "draft" then "#ffd89b"
    else if status == "inactive" then "#ff6b6b"
    else DefaultStatusColor
  }

  const DefaultCategoryIcon := "\U{1F4DD}"

  /** `getCategoryIcon`: one icon per known category, a memo icon for
      anything else. */
  function CategoryIcon(category: string): (icon: string)
    ensures icon == DefaultCategoryIcon <==>
      category !in {"Reminder", "Confirmation", "Cancellation", "Follow-up", "Notification"}
    ensures |icon| == 1
    ensures category == "Reminder" ==> icon == "\U{23F0}"
    ensures category == "Confirmation" ==> icon == "\U{2705}"
    ensures category == "Cancellation" ==> icon == "\U{274C}"
    ensures category == "Follow-up" ==> icon == "\U{1F504}"
    ensures category == "Notification" ==> icon == "\U{1F4E2}"
  {
    if category == "Reminder" then "\U{23F0}"
    else if category == "Confirmation" then "\U{2705}"
    else if category == "Cancellation" then "\U{274C}"
    else if category == "Follow-up" then "\U{1F504}"
    else if category == "Notification" then "\U{1F4E2}"
    else DefaultCategoryIcon
  }

  /** The colours tell the statuses apart: two different statuses share a
      colour only when neither is one of the three known ones. */
  lemma StatusColorsDistinct(a: string, b: string)
    requires a != b && StatusColor(a) == StatusColor(b)
    ensures a !in {"active", "draft", "inactive"} && b !in {"active", "draft", "inactive"}
  {
  }

  /** The icons tell the categories apart: two different categories share
      an icon only when neither is one of the five known ones. */
  lemma CategoryIconsDistinct(a: string, b: string)
    requires a != b && CategoryIcon(a) == CategoryIcon(b)
    ensures a !in {"Reminder", "Confirmation", "Cancellation", "Follow-up", "Notification"}
    ensures b !in {"Reminder", "Confirmation", "Cancellation", "Follow-up", "Notification"}
  {
  }
}
