/**
 * The admin category dialog: the rules on its two fields, the dialog's open,
 * close and edit transitions, the requests it sends, and the rule that offers
 * deletion only for a category without products.
 */
module CategoryForm {
  import opened Results
  import opened Forms
  import opened Store
  import Categories

  datatype Form = Form(name: string, description: string)

  const Blank: Form := Form("", "")

  predicate Valid(f: Form) {
    Text(f.name, true, 2, 100) && Text(f.description, false, 0, 500)
  }

  /** A submitted form has a name 2 to 100 long and a description at most 500 long. */
  lemma ValidMeans(f: Form)
    ensures Valid(f) <==> 2 <= |f.name| <= 100 && |f.description| <= 500
  {
    RequiredText(f.name, 2, 100);
  }

  /** The dialog: whether it is shown, the category being edited (none when creating), and the form. */
  datatype Dialog = Dialog(open: bool, editing: Option<int>, form: Form)

  const Closed: Dialog := Dialog(false, None, Blank)

  /** `handleOpenDialog`: with a category, its values to edit; without one, an empty form to create. */
  function Open(category: Option<Categories.CategoryDto>): (r: Dialog)
    ensures r.open
    ensures category.None? ==> r.editing.None? && r.form == Blank
    ensures category.Some? ==>
      r.editing == Some(category.value.id) && r.form == Form(category.value.name, category.value.description)
  {
    match category
    case None => Dialog(true, None, Blank)
    case Some(c) => Dialog(true, Some(c.id), Form(c.name, c.description))
  }

  /** `handleCloseDialog`, also run after a successful save: hidden, no target, empty form. */
  function Close(d: Dialog): (r: Dialog)
    ensures !r.open && r.editing.None? && r.form.name == "" && r.form.description == ""
  {
    Closed
  }

  /** Whatever was typed or edited, closing forgets it, and opening for creation afterwards shows an empty form. */
  lemma CloseForgets(d: Dialog, d': Dialog)
    ensures Close(d) == Close(d')
    ensures Open(None).form == Close(d).form
  {
  }

  /** A closed dialog's form cannot be submitted without typing a name. */
  lemma BlankInvalid()
    ensures !Valid(Blank)
  {
  }

  /** The request a save sends: a create without a target, an update of the target otherwise. */
  datatype Request = Create(dto: Categories.CreateCategoryDto) | Update(id: int, patch: Categories.UpdateCategoryDto)

  function Submit(d: Dialog): (r: Request)
    ensures d.editing.None? ==> r == Create(Categories.CreateCategoryDto(d.form.name, d.form.description))
    ensures d.editing.Some? ==>
      r.Update? && r.id == d.editing.value && r.patch.name == Some(d.form.name) && r.patch.description == Some(d.form.description)
  {
    match d.editing
    case None => Create(Categories.CreateCategoryDto(d.form.name, d.form.description))
    case Some(id) => Update(id, Categories.UpdateCategoryDto(Some(d.form.name), Some(d.form.description)))
  }

  /**
   * Saving a valid edit form always renames the category to the form's name;
   * the description is replaced only when the form's is not empty, so clearing
   * it in the form keeps the stored one.
   */
  lemma EditSaves(s: Store, id: int, f: Form)
    requires id in s.categories && Valid(f)
    ensures var r := Categories.UpdateCategory(s, id, Categories.UpdateCategoryDto(Some(f.name), Some(f.description)));
      && r.Ok?
      && r.value.categories[id].name == f.name
      && r.value.categories[id].description == (if f.description == "" then s.categories[id].description else f.description)
  {
  }

  /** The delete button is enabled unless the listed category has products. */
  predicate DeleteEnabled(c: Categories.CategoryDto) {
    !(c.productCount > 0)
  }

  /** The button is enabled exactly when the server would delete the category. */
  lemma DeleteEnabledMatchesServer(s: Store, id: int)
    requires id in s.categories
    ensures DeleteEnabled(Categories.CategoryDtoOf(s, id)) <==> Categories.DeleteCategory(s, id).Ok?
  {
    Categories.DeleteIffNoProducts(s, id);
  }
}
