/** The category controller: categories, the sub-categories embedded in them, and items that
    refer to a sub-category by id. */
module Catalog {
  import opened Common
  import opened Store
  import opened Records
  import opened Http

  /** The image an optional upload leaves: the new URL, or `current` when there is no file. */
  function ImageAfter(file: Upload, current: string): (r: string)
    requires !file.UploadError?
    ensures file.Uploaded? ==> r == file.url
    ensures file.NoFile? ==> r == current
  {
    if file.Uploaded? then file.url else current
  }

  // ---------------------------------------------------------------------------
  // Categories
  // ---------------------------------------------------------------------------

  /** `createCategory`: title and content are required; the new category has no
      sub-categories. */
  function CreateCategory(db: Db, title: Option<string>, content: Option<string>, file: Upload, freshId: Id)
    : (r: Reply)
    requires freshId !in Ids(db.categories)
    ensures r.status.Fail? ==> r.db == db
    ensures !Truthy(title) || !Truthy(content) <==> r.status == Fail(MissingField)
    ensures Truthy(title) && Truthy(content) && file.UploadError? ==> r.status == Fail(UploadFailed)
    ensures r.status.Ok? ==>
      && var c := Category(title.value, content.value, ImageAfter(file, ""), []);
      && r.status == Ok(CategoryData(freshId, c))
      && r.db == db.(categories := Add(db.categories, freshId, c))
      && CategorySavable(c)
  {
    if !Truthy(title) || !Truthy(content) then Reply(Fail(MissingField), db)
    else if file.UploadError? then Reply(Fail(UploadFailed), db)
    else
      var c := Category(title.value, content.value, ImageAfter(file, ""), []);
      Reply(Ok(CategoryData(freshId, c)), db.(categories := Add(db.categories, freshId, c)))
  }

  /** `updateCategoryById`: a truthy title or content replaces the stored one; the image
      changes only with a new upload; the sub-categories are untouched. */
  function UpdateCategoryById(db: Db, id: Id, title: Option<string>, content: Option<string>, file: Upload)
    : (r: Reply)
    ensures r.status.Fail? ==> r.db == db
    ensures Get(db.categories, id).None? <==> r.status == Fail(NotFound)
    ensures Get(db.categories, id).Some? && file.UploadError? ==> r.status == Fail(UploadFailed)
    ensures Get(db.categories, id).Some? && !file.UploadError? ==>
      && var c := Get(db.categories, id).value;
      && var c' := Category(OrElse(title, c.title), OrElse(content, c.content), ImageAfter(file, c.image), c.subCategories);
      && r.status == Ok(CategoryData(id, c'))
      && Get(r.db.categories, id) == Some(c')
      && (CategorySavable(c) ==> CategorySavable(c'))
    ensures forall k :: k != id ==> Get(r.db.categories, k) == Get(db.categories, k)
    ensures r.db == db.(categories := r.db.categories)
  {
    match Get(db.categories, id)
    case None => Reply(Fail(NotFound), db)
    case Some(c) =>
      if file.UploadError? then Reply(Fail(UploadFailed), db)
      else
        var c' := c.(title := OrElse(title, c.title), content := OrElse(content, c.content),
                     image := ImageAfter(file, c.image));
        Reply(Ok(CategoryData(id, c')), db.(categories := Put(db.categories, id, c')))
  }

  /** `deleteCategoryById`: removes the category and its embedded sub-categories; items that
      refer to those sub-categories stay. */
  function DeleteCategoryById(db: Db, id: Id): (r: Reply)
    ensures Get(db.categories, id).None? <==> r == Reply(Fail(NotFound), db)
    ensures Get(db.categories, id).Some? ==> r == Reply(Ok(Done), db.(categories := Delete(db.categories, id)))
    ensures r.db.items == db.items
    ensures UniqueIds(db.categories) ==> Get(r.db.categories, id).None?
  {
    if Get(db.categories, id).None? then Reply(Fail(NotFound), db)
    else Reply(Ok(Done), db.(categories := Delete(db.categories, id)))
  }

  // ---------------------------------------------------------------------------
  // Sub-categories
  // ---------------------------------------------------------------------------

  /** No category holds a sub-category under `id` yet. */
  predicate FreshSubId(db: Db, id: Id)
  {
    forall j | 0 <= j < |db.categories| :: id !in Ids(db.categories[j].val.subCategories)
  }

  /** `createSubCategory`. The title is checked first and the image uploaded before the
      category is looked up, so a failing upload is reported even for an unknown category.
      Exactly one sub-category is appended, pointing back at its category. */
  function CreateSubCategory(db: Db, categoryId: Id, title: Option<string>, file: Upload, freshId: Id): (r: Reply)
    requires FreshSubId(db, freshId)
    ensures r.status.Fail? ==> r.db == db
    ensures !Truthy(title) <==> r.status == Fail(MissingField)
    ensures Truthy(title) && file.UploadError? ==> r.status == Fail(UploadFailed)
    ensures Truthy(title) && !file.UploadError? && Get(db.categories, categoryId).None? ==> r.status == Fail(NotFound)
    ensures r.status.Ok? ==>
      && var c := Get(db.categories, categoryId).value;
      && var sub := SubCategory(title.value, ImageAfter(file, ""), categoryId);
      && r.status == Ok(SubCategoryCreated(sub))
      && Get(r.db.categories, categoryId) == Some(c.(subCategories := c.subCategories + [Doc(freshId, sub)]))
      && r.db == db.(categories := r.db.categories)
    ensures forall k :: k != categoryId ==> Get(r.db.categories, k) == Get(db.categories, k)
  {
    if !Truthy(title) then Reply(Fail(MissingField), db)
    else if file.UploadError? then Reply(Fail(UploadFailed), db)
    else
      match Get(db.categories, categoryId)
      case None => Reply(Fail(NotFound), db)
      case Some(c) =>
        var sub := SubCategory(title.value, ImageAfter(file, ""), categoryId);
        var c' := c.(subCategories := Add(c.subCategories, freshId, sub));
        Reply(Ok(SubCategoryCreated(sub)), db.(categories := Put(db.categories, categoryId, c')))
  }

  /** `getSubCategoryById`: the sub-category stored under `subId` in that category. */
  function GetSubCategoryById(db: Db, categoryId: Id, subId: Id): (r: Reply)
    ensures r.db == db
    ensures Get(db.categories, categoryId).None? ==> r.status == Fail(NotFound)
    ensures Get(db.categories, categoryId).Some? ==>
      match Get(Get(db.categories, categoryId).value.subCategories, subId)
      case None => r.status == Fail(NotFound)
      case Some(s) => r.status == Ok(SubCategoryData(Doc(subId, s)))
  {
    match Get(db.categories, categoryId)
    case None => Reply(Fail(NotFound), db)
    case Some(c) =>
      match Get(c.subCategories, subId)
      case None => Reply(Fail(NotFound), db)
      case Some(s) => Reply(Ok(SubCategoryData(Doc(subId, s))), db)
  }

  /** A created sub-category can be read back under its new id. */
  lemma CreatedSubCategoryReadable(db: Db, categoryId: Id, title: Option<string>, file: Upload, freshId: Id)
    requires FreshSubId(db, freshId)
    requires CreateSubCategory(db, categoryId, title, file, freshId).status.Ok?
    ensures var db1 := CreateSubCategory(db, categoryId, title, file, freshId).db;
            GetSubCategoryById(db1, categoryId, freshId).status
              == Ok(SubCategoryData(Doc(freshId, SubCategory(title.value, ImageAfter(file, ""), categoryId))))
  {
    var c := Get(db.categories, categoryId).value;
    var j :| 0 <= j < |db.categories| && db.categories[j] == Doc(categoryId, c);
    assert freshId !in Ids(c.subCategories);
  }

  /** `updateSubCategoryById`: a new upload replaces the image and a truthy title the title;
      the other sub-categories and the category's own fields stay. */
  function UpdateSubCategoryById(db: Db, categoryId: Id, subId: Id, title: Option<string>, file: Upload): (r: Reply)
    ensures r.status.Fail? ==> r.db == db
    ensures Get(db.categories, categoryId).None? ==> r.status == Fail(NotFound)
    ensures Get(db.categories, categoryId).Some? ==>
      && var c := Get(db.categories, categoryId).value;
      && match Get(c.subCategories, subId)
         case None => r.status == Fail(NotFound)
         case Some(s) =>
           if file.UploadError? then r.status == Fail(UploadFailed)
           else
             && var s' := SubCategory(OrElse(title, s.title), ImageAfter(file, s.image), s.category);
             && r.status == Ok(SubCategoryData(Doc(subId, s')))
             && Get(r.db.categories, categoryId) == Some(c.(subCategories := Put(c.subCategories, subId, s')))
    ensures forall k :: k != categoryId ==> Get(r.db.categories, k) == Get(db.categories, k)
    ensures r.db == db.(categories := r.db.categories)
  {
    match Get(db.categories, categoryId)
    case None => Reply(Fail(NotFound), db)
    case Some(c) =>
      match Get(c.subCategories, subId)
      case None => Reply(Fail(NotFound), db)
      case Some(s) =>
        if file.UploadError? then Reply(Fail(UploadFailed), db)
        else
          var s' := s.(title := OrElse(title, s.title), image := ImageAfter(file, s.image));
          var c' := c.(subCategories := Put(c.subCategories, subId, s'));
          Reply(Ok(SubCategoryData(Doc(subId, s'))), db.(categories := Put(db.categories, categoryId, c')))
  }

  /** `deleteSubCategoryById`: removes that sub-category from its category's list. */
  function DeleteSubCategoryById(db: Db, categoryId: Id, subId: Id): (r: Reply)
    ensures r.status.Fail? ==> r == Reply(Fail(NotFound), db)
    ensures r.status.Ok? <==>
      Get(db.categories, categoryId).Some? && Get(Get(db.categories, categoryId).value.subCategories, subId).Some?
    ensures r.status.Ok? ==>
      && var c := Get(db.categories, categoryId).value;
      && Get(r.db.categories, categoryId) == Some(c.(subCategories := Delete(c.subCategories, subId)))
    ensures forall k :: k != categoryId ==> Get(r.db.categories, k) == Get(db.categories, k)
    ensures r.db == db.(categories := r.db.categories)
  {
    match Get(db.categories, categoryId)
    case None => Reply(Fail(NotFound), db)
    case Some(c) =>
      if Get(c.subCategories, subId).None? then Reply(Fail(NotFound), db)
      else
        var c' := c.(subCategories := Delete(c.subCategories, subId));
        Reply(Ok(Done), db.(categories := Put(db.categories, categoryId, c')))
  }

  /** After a deletion the sub-category is gone and every other one of the category is still
      readable with the same contents. */
  lemma DeletedSubCategoryGone(db: Db, categoryId: Id, subId: Id, other: Id)
    requires DeleteSubCategoryById(db, categoryId, subId).status.Ok?
    requires UniqueIds(Get(db.categories, categoryId).value.subCategories)
    ensures var db1 := DeleteSubCategoryById(db, categoryId, subId).db;
            GetSubCategoryById(db1, categoryId, subId).status == Fail(NotFound)
    ensures other != subId ==>
            var db1 := DeleteSubCategoryById(db, categoryId, subId).db;
            GetSubCategoryById(db1, categoryId, other).status == GetSubCategoryById(db, categoryId, other).status
  {
  }

  // ---------------------------------------------------------------------------
  // Items
  // ---------------------------------------------------------------------------

  /** The body of `createItem` and `updateItemById`. */
  datatype ItemForm = ItemForm(name: Option<string>, weight: Option<string>, cost: Option<string>)

  predicate ItemFormComplete(form: ItemForm)
  {
    Truthy(form.name) && Truthy(form.weight) && Truthy(form.cost)
  }

  /** `createItem`: name, weight and cost are required; whether the sub-category exists is
      not checked. */
  function CreateItem(db: Db, subCategoryId: Id, form: ItemForm, file: Upload, freshId: Id): (r: Reply)
    requires freshId !in Ids(db.items)
    ensures r.status.Fail? ==> r.db == db
    ensures !ItemFormComplete(form) <==> r.status == Fail(MissingField)
    ensures ItemFormComplete(form) && file.UploadError? ==> r.status == Fail(UploadFailed)
    ensures r.status.Ok? ==>
      && var it := Item(subCategoryId, form.name.value, form.weight.value, form.cost.value, ImageAfter(file, ""));
      && r.status == Ok(ItemData(freshId, it))
      && r.db == db.(items := Add(db.items, freshId, it))
      && ItemSavable(it)
  {
    if !ItemFormComplete(form) then Reply(Fail(MissingField), db)
    else if file.UploadError? then Reply(Fail(UploadFailed), db)
    else
      var it := Item(subCategoryId, form.name.value, form.weight.value, form.cost.value, ImageAfter(file, ""));
      Reply(Ok(ItemData(freshId, it)), db.(items := Add(db.items, freshId, it)))
  }

  /** The items of a sub-category, in store order. */
  function ItemsOf(items: seq<Doc<Item>>, subCategoryId: Id): (r: seq<Doc<Item>>)
    ensures |r| <= |items|
    ensures forall j | 0 <= j < |r| :: r[j].val.subCategoryId == subCategoryId
  {
    if |items| == 0 then []
    else
      var rest := ItemsOf(items[1..], subCategoryId);
      if items[0].val.subCategoryId == subCategoryId then [items[0]] + rest else rest
  }

  /** Every stored item of the sub-category is listed, and everything listed is stored. */
  lemma {:induction false} ItemsOfComplete(items: seq<Doc<Item>>, subCategoryId: Id)
    ensures forall i | 0 <= i < |items| && items[i].val.subCategoryId == subCategoryId :: items[i] in ItemsOf(items, subCategoryId)
    ensures forall d | d in ItemsOf(items, subCategoryId) :: d in items
  {
    if |items| > 0 {
      ItemsOfComplete(items[1..], subCategoryId);
      forall i | 0 <= i < |items| && items[i].val.subCategoryId == subCategoryId
        ensures items[i] in ItemsOf(items, subCategoryId)
      {
        if i > 0 {
          assert items[i] == items[1..][i - 1];
        }
      }
    }
  }

  /** `getItemsBySubCategory`: never fails, possibly with an empty list. */
  function GetItemsBySubCategory(db: Db, subCategoryId: Id): (r: Reply)
    ensures r.db == db
    ensures r.status == Ok(ItemList(ItemsOf(db.items, subCategoryId)))
  {
    Reply(Ok(ItemList(ItemsOf(db.items, subCategoryId))), db)
  }

  /** A created item is listed under its sub-category. */
  lemma CreatedItemListed(db: Db, subCategoryId: Id, form: ItemForm, file: Upload, freshId: Id)
    requires freshId !in Ids(db.items)
    requires CreateItem(db, subCategoryId, form, file, freshId).status.Ok?
    ensures var db1 := CreateItem(db, subCategoryId, form, file, freshId).db;
            var listed := GetItemsBySubCategory(db1, subCategoryId).status.body.items;
            exists j | 0 <= j < |listed| :: listed[j].id == freshId
  {
    var db1 := CreateItem(db, subCategoryId, form, file, freshId).db;
    ItemsOfComplete(db1.items, subCategoryId);
    var listed := ItemsOf(db1.items, subCategoryId);
    assert db1.items[|db.items|] in listed;
  }

  /** `updateItemById`: a truthy name, weight or cost replaces the stored one; the image
      changes only with a new upload; the sub-category link stays. */
  function UpdateItemById(db: Db, id: Id, form: ItemForm, file: Upload): (r: Reply)
    ensures r.status.Fail? ==> r.db == db
    ensures Get(db.items, id).None? <==> r.status == Fail(NotFound)
    ensures Get(db.items, id).Some? && file.UploadError? ==> r.status == Fail(UploadFailed)
    ensures Get(db.items, id).Some? && !file.UploadError? ==>
      && var it := Get(db.items, id).value;
      && var it' := Item(it.subCategoryId, OrElse(form.name, it.name), OrElse(form.weight, it.weight),
                         OrElse(form.cost, it.cost), ImageAfter(file, it.image));
      && r.status == Ok(ItemData(id, it'))
      && Get(r.db.items, id) == Some(it')
      && (ItemSavable(it) ==> ItemSavable(it'))
    ensures forall k :: k != id ==> Get(r.db.items, k) == Get(db.items, k)
    ensures r.db == db.(items := r.db.items)
  {
    match Get(db.items, id)
    case None => Reply(Fail(NotFound), db)
    case Some(it) =>
      if file.UploadError? then Reply(Fail(UploadFailed), db)
      else
        var it' := it.(name := OrElse(form.name, it.name), weight := OrElse(form.weight, it.weight),
                       cost := OrElse(form.cost, it.cost), image := ImageAfter(file, it.image));
        Reply(Ok(ItemData(id, it')), db.(items := Put(db.items, id, it')))
  }

  /** Repeating an item update without a new image changes nothing more. */
  lemma UpdateItemIdempotent(db: Db, id: Id, form: ItemForm)
    requires UpdateItemById(db, id, form, NoFile).status.Ok?
    ensures var db1 := UpdateItemById(db, id, form, NoFile).db;
            Get(UpdateItemById(db1, id, form, NoFile).db.items, id) == Get(db1.items, id)
  {
  }

  /** `deleteItemById`. */
  function DeleteItemById(db: Db, id: Id): (r: Reply)
    ensures Get(db.items, id).None? <==> r == Reply(Fail(NotFound), db)
    ensures Get(db.items, id).Some? ==> r == Reply(Ok(Done), db.(items := Delete(db.items, id)))
    ensures UniqueIds(db.items) ==> Get(r.db.items, id).None?
    ensures forall k :: k != id ==> Get(r.db.items, k) == Get(db.items, k)
  {
    if Get(db.items, id).None? then Reply(Fail(NotFound), db)
    else Reply(Ok(Done), db.(items := Delete(db.items, id)))
  }
}
