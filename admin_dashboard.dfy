/** The admin dashboard's product management: the product form with its
    required-field check, filling the form from a product to edit it,
    saving (update of the edited product or insert of a new one), deleting,
    and resetting the form. */
module AdminDashboard {
  import opened Backend
  import GradeBadge

  /** The form's fields. `price` stands for the price input: empty, or a
      price in cents (the conversions between number and text are not part
      of this model). */
  datatype ProductForm = ProductForm(name: string, price: Option<nat>, grade: string, link: string)

  /** The form's initial and reset state: empty fields and the grade HG. It
      does not pass the required-field check, and its grade is one the badge
      knows by name. */
  function DefaultForm(): (f: ProductForm)
    ensures !IsComplete(f)
    ensures f.grade == "HG" && f.grade in GradeBadge.GradeNames
    ensures f.name == "" && f.price.None? && f.link == ""
  {
    ProductForm("", None, "HG", "")
  }

  /** `handleSubmit`'s check: both required fields are filled in. A complete
      form has a price, so its product data can be formed. */
  predicate IsComplete(f: ProductForm): (b: bool)
    ensures b ==> f.price.Some? && |f.name| > 0
  {
    f.name != "" && f.price.Some?
  }

  /** `productData`: the columns a save writes. An empty link is stored as
      null and any other link as it was typed. */
  function ProductDataOf(f: ProductForm): (d: ProductData)
    requires f.price.Some?
    ensures d.name == f.name && d.price == f.price.value && d.grade == f.grade
    ensures d.link.None? <==> f.link == ""
    ensures d.link.Some? ==> d.link.value == f.link
  {
    ProductData(f.name, f.price.value, f.grade, if f.link == "" then None else Some(f.link))
  }

  /** The form `handleEdit` fills in from a product; a null link shows as "". */
  function FormOf(p: Product): (f: ProductForm)
    ensures f.name == p.name && f.price == Some(p.price) && f.grade == p.grade
    ensures f.link == "" <==> p.link.None? || p.link == Some("")
    ensures p.link.Some? ==> f.link == p.link.value
  {
    ProductForm(p.name, Some(p.price), p.grade, match p.link case Some(l) => l case None => "")
  }

  function ProductOf(id: Id, d: ProductData): Product {
    Product(id, d.name, d.price, d.grade, d.link)
  }

  /** Saving a product's own form unedited writes back exactly that product,
      unless its link is the empty string, which comes back as null. */
  lemma EditRoundTrip(p: Product)
    ensures ProductDataOf(FormOf(p)) == DataOf(p) <==> p.link != Some("")
  {
  }

  /** A saved form, opened again for editing, shows what was typed. */
  lemma FormRoundTrip(id: Id, f: ProductForm)
    requires f.price.Some?
    ensures FormOf(ProductOf(id, ProductDataOf(f))) == f
  {
  }

  /** A product opened for editing passes the required-field check exactly
      when its name is not empty. */
  lemma EditedFormComplete(p: Product)
    ensures IsComplete(FormOf(p)) <==> p.name != ""
  {
  }

  /** The products table after a successful save: the edited product's row
      is overwritten (an update by id; a row deleted meanwhile is not
      recreated), or a new row is inserted under `newId`. */
  ghost function Saved(products: map<Id, ProductData>, newId: Id, editing: Option<Product>, d: ProductData)
    : (r: map<Id, ProductData>)
    ensures editing.Some? ==> r.Keys == products.Keys
    ensures editing.Some? && editing.value.id in products ==> r[editing.value.id] == d
    ensures editing.None? ==> r.Keys == products.Keys + {newId} && r[newId] == d
    ensures forall k :: k in products && k != (if editing.Some? then editing.value.id else newId) ==> r[k] == products[k]
  {
    match editing
    case Some(p) => if p.id in products then products[p.id := d] else products
    case None => products[newId := d]
  }

  /** Saving while editing changes only the edited row and adds none. */
  lemma SaveWhileEditing(products: map<Id, ProductData>, newId: Id, p: Product, d: ProductData)
    ensures var r := Saved(products, newId, Some(p), d);
            r.Keys == products.Keys && |r| == |products|
            && (p.id in products ==> r[p.id] == d)
            && forall k :: k in products && k != p.id ==> r[k] == products[k]
  {
  }

  /** Saving a new product adds exactly one row and changes none. */
  lemma SaveNew(products: map<Id, ProductData>, newId: Id, d: ProductData)
    requires newId !in products
    ensures var r := Saved(products, newId, None, d);
            r.Keys == products.Keys + {newId} && |r| == |products| + 1
            && r[newId] == d
            && forall k :: k in products ==> r[k] == products[k]
  {
  }

  class Dashboard {
    var form: ProductForm
    var editing: Option<Product>
    var dialogOpen: bool

    constructor ()
      ensures form == DefaultForm() && editing == None && !dialogOpen
    {
      form, editing, dialogOpen := DefaultForm(), None, false;
    }

    /** `resetForm`: default fields and no product being edited. */
    method ResetForm()
      modifies this
      ensures form == DefaultForm() && editing == None && dialogOpen == old(dialogOpen)
    {
      form, editing := DefaultForm(), None;
    }

    /** The Add Product button: it runs `resetForm`, and the dialog opens. */
    method OpenNew()
      modifies this
      ensures form == DefaultForm() && editing == None && dialogOpen
    {
      ResetForm();
      dialogOpen := true;
    }

    /** The dialog's `onOpenChange`: opening or closing it sets only the
        dialog flag; the form and the edited product are kept. */
    method SetDialogOpen(open: bool)
      modifies this
      ensures dialogOpen == open && form == old(form) && editing == old(editing)
    {
      dialogOpen := open;
    }

    /** `handleEdit(product)`: edit `p`, its fields in the form, dialog open. */
    method HandleEdit(p: Product)
      modifies this
      ensures editing == Some(p) && form == FormOf(p) && dialogOpen
    {
      editing := Some(p);
      form := FormOf(p);
      dialogOpen := true;
    }

    /** `saveMutation.mutate(data)`: update the edited product or insert a
        new one; on success reset the form and close the dialog, on failure
        leave both as they are. */
    method Save(db: Database, data: ProductForm, ok: bool) returns (out: Outcome)
      requires db.Valid() && data.price.Some?
      modifies this, db
      ensures db.Valid() && db.cart == old(db.cart)
      ensures out == if ok then Ok else Err(ServiceError)
      ensures db.products == if ok then Saved(old(db.products), old(db.nextId), old(editing), ProductDataOf(data))
                             else old(db.products)
      ensures ok ==> form == DefaultForm() && editing == None && !dialogOpen
      ensures !ok ==> form == old(form) && editing == old(editing) && dialogOpen == old(dialogOpen)
    {
      var d := ProductDataOf(data);
      if editing.Some? {
        out := db.UpdateProduct(editing.value.id, d, ok);
      } else {
        out := db.InsertProduct(d, ok);
      }
      if out.Ok? {
        ResetForm();
        dialogOpen := false;
      }
    }

    /** `handleSubmit`: an incomplete form is refused before anything is
        sent; a complete one is saved. */
    method HandleSubmit(db: Database, ok: bool) returns (out: Outcome)
      requires db.Valid()
      modifies this, db
      ensures db.Valid() && db.cart == old(db.cart)
      ensures !IsComplete(old(form)) ==>
                out == Err(MissingFields) && db.products == old(db.products) && db.nextId == old(db.nextId)
                && form == old(form) && editing == old(editing) && dialogOpen == old(dialogOpen)
      ensures IsComplete(old(form)) ==> out == if ok then Ok else Err(ServiceError)
      ensures IsComplete(old(form)) ==>
                db.products == if ok then Saved(old(db.products), old(db.nextId), old(editing), ProductDataOf(old(form)))
                               else old(db.products)
      ensures IsComplete(old(form)) && ok ==> form == DefaultForm() && editing == None && !dialogOpen
      ensures IsComplete(old(form)) && !ok ==>
                form == old(form) && editing == old(editing) && dialogOpen == old(dialogOpen)
    {
      if !IsComplete(form) {
        return Err(MissingFields);
      }
      out := Save(db, form, ok);
    }

    /** `deleteMutation.mutate(id)`: delete the product with that id. */
    method Delete(db: Database, id: Id, ok: bool) returns (out: Outcome)
      requires db.Valid()
      modifies db
      ensures db.Valid() && db.cart == old(db.cart) && db.nextId == old(db.nextId)
      ensures out == if ok then Ok else Err(ServiceError)
      ensures ok ==> id !in db.products
      ensures ok ==> forall k :: k in old(db.products) && k != id ==> k in db.products && db.products[k] == old(db.products)[k]
      ensures db.products == if ok then old(db.products) - {id} else old(db.products)
    {
      out := db.DeleteProduct(id, ok);
    }
  }
}
