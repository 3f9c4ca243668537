/**
 * The category service of the main service: a table of categories keyed by
 * id with unique names. Creation and renaming refuse a name already in the
 * table, and deletion refuses a category that events still reference.
 */
module CategoryService {
  import opened Wrappers

  datatype CategoryDto = CategoryDto(id: int, name: string)

  /** Why a DatabaseConstraintException was thrown. */
  datatype Constraint = NameExists(name: string) | ReferencedByEvents(catId: int)

  /** The exceptions of the service (the main service answers them with 404 and 409). */
  datatype CategoryError =
    | NotFoundException(catId: int)
    | DatabaseConstraintException(constraint: Constraint)

  class CategoryServiceImpl {
    /** The category table: id to name. */
    var categories: map<int, string>
    /** The id the database assigns to the next saved category. */
    var nextId: int

    /** Ids are positive and already assigned; no two categories share a name. */
    ghost predicate Valid()
      reads this
    {
      && nextId >= 1
      && (forall id :: id in categories ==> 1 <= id < nextId)
      && (forall a, b :: a in categories && b in categories && categories[a] == categories[b] ==> a == b)
    }

    constructor ()
      ensures Valid()
      ensures categories == map[]
    {
      categories := map[];
      nextId := 1;
    }

    /**
     * Every stored category once, in the order the repository yields them;
     * `from` and `size` are accepted and ignored.
     */
    method FindAll(from: Option<int>, size: Option<int>) returns (r: seq<CategoryDto>)
      ensures |r| == |categories|
      ensures forall i :: 0 <= i < |r| ==> r[i].id in categories && categories[r[i].id] == r[i].name
      ensures forall id :: id in categories ==> exists i :: 0 <= i < |r| && r[i].id == id
      ensures forall i, j :: 0 <= i < j < |r| ==> r[i].id != r[j].id
    {
      var remaining := categories.Keys;
      r := [];
      while remaining != {}
        invariant remaining <= categories.Keys
        invariant |r| + |remaining| == |categories.Keys|
        invariant Listed(r, remaining)
        decreases |remaining|
      {
        var id := Pick(remaining);
        ListedStep(r, remaining, id);
        r := r + [CategoryDto(id, categories[id])];
        remaining := remaining - {id};
      }
    }

    /**
     * `r` lists, once each and with their names, exactly the categories whose
     * ids are not in `remaining`.
     */
    ghost predicate Listed(r: seq<CategoryDto>, remaining: set<int>)
      reads this
    {
      && (forall i :: 0 <= i < |r| ==>
            r[i].id in categories && r[i].id !in remaining && categories[r[i].id] == r[i].name)
      && (forall id :: id in categories && id !in remaining ==> exists i :: 0 <= i < |r| && r[i].id == id)
      && (forall i, j :: 0 <= i < j < |r| ==> r[i].id != r[j].id)
    }

    /** Listing one more remaining category keeps the listing exact. */
    lemma ListedStep(r: seq<CategoryDto>, remaining: set<int>, id: int)
      requires Listed(r, remaining) && id in remaining && remaining <= categories.Keys
      ensures Listed(r + [CategoryDto(id, categories[id])], remaining - {id})
    {
      var r' := r + [CategoryDto(id, categories[id])];
      var remaining' := remaining - {id};
      forall i | 0 <= i < |r| ensures r'[i] == r[i] { }
      forall k | k in categories && k !in remaining'
        ensures exists i :: 0 <= i < |r'| && r'[i].id == k
      {
        if k == id {
          assert r'[|r|].id == k;
        } else {
          var i :| 0 <= i < |r| && r[i].id == k;
          assert r'[i].id == k;
        }
      }
    }

    /** Some element of a non-empty set. */
    static method Pick(s: set<int>) returns (x: int)
      requires s != {}
      ensures x in s
    {
      assert exists y :: y in s by {
        if forall y :: y !in s {
          assert false;
        }
      }
      var found :| found in s;
      x := found;
    }

    /** The category with that id, or NotFoundException when there is none. */
    function FindById(catId: int): (r: Result<CategoryDto, CategoryError>)
      reads this
      ensures r.Failure? <==> catId !in categories
      ensures r.Failure? ==> r.error == NotFoundException(catId)
      ensures r.Success? ==> r.value.id == catId && r.value.name == categories[catId]
    {
      if catId in categories then Success(CategoryDto(catId, categories[catId]))
      else Failure(NotFoundException(catId))
    }

    /**
     * Saves a new category under a fresh id, unless a category with that name
     * exists, in which case nothing changes.
     */
    method Create(name: string) returns (r: Result<CategoryDto, CategoryError>)
      requires Valid()
      modifies this
      ensures Valid()
      ensures old(name in categories.Values) ==>
                r == Failure(DatabaseConstraintException(NameExists(name)))
                && categories == old(categories)
      ensures !old(name in categories.Values) ==>
                && r.Success? && r.value.name == name
                && r.value.id !in old(categories)
                && categories == old(categories)[r.value.id := name]
      ensures r.Success? ==> FindById(r.value.id) == Success(r.value)
    {
      if name in categories.Values {
        return Failure(DatabaseConstraintException(NameExists(name)));
      }
      var id := nextId;
      categories := categories[id := name];
      nextId := nextId + 1;
      r := Success(CategoryDto(id, name));
    }

    /**
     * Removes the category. A missing id is reported first; a category that
     * events reference (`eventCategories` holds the category ids of the
     * events) is kept and reported.
     */
    method DeleteById(catId: int, eventCategories: set<int>) returns (error: Option<CategoryError>)
      requires Valid()
      modifies this
      ensures Valid()
      ensures catId !in old(categories) ==>
                error == Some(NotFoundException(catId)) && categories == old(categories)
      ensures catId in old(categories) && catId in eventCategories ==>
                error == Some(DatabaseConstraintException(ReferencedByEvents(catId)))
                && categories == old(categories)
      ensures catId in old(categories) && catId !in eventCategories ==>
                error == None && categories == old(categories) - {catId}
      ensures error.None? ==> FindById(catId) == Failure(NotFoundException(catId))
    {
      if catId !in categories {
        return Some(NotFoundException(catId));
      }
      if catId in eventCategories {
        return Some(DatabaseConstraintException(ReferencedByEvents(catId)));
      }
      categories := categories - {catId};
      error := None;
    }

    /**
     * Renames the category. A missing id is reported first; then a name held
     * by any category, the renamed one included, is refused. Only that
     * category's name changes.
     */
    method UpdateById(catId: int, name: string) returns (r: Result<CategoryDto, CategoryError>)
      requires Valid()
      modifies this
      ensures Valid()
      ensures catId !in old(categories) ==>
                r == Failure(NotFoundException(catId)) && categories == old(categories)
      ensures catId in old(categories) && name in old(categories.Values) ==>
                r == Failure(DatabaseConstraintException(NameExists(name)))
                && categories == old(categories)
      ensures catId in old(categories) && name !in old(categories.Values) ==>
                r == Success(CategoryDto(catId, name))
                && categories == old(categories)[catId := name]
      ensures r.Success? ==> FindById(catId) == r
    {
      if catId !in categories {
        return Failure(NotFoundException(catId));
      }
      if name in categories.Values {
        return Failure(DatabaseConstraintException(NameExists(name)));
      }
      categories := categories[catId := name];
      r := Success(CategoryDto(catId, name));
    }
  }

  /**
   * Creating a category and renaming it to its own name: the rename is
   * refused, because the name check does not exclude the category itself.
   */
  method RenameToOwnNameScenario() returns (created: Result<CategoryDto, CategoryError>,
                                            renamed: Result<CategoryDto, CategoryError>)
    ensures created.Success? && created.value.name == "Concerts"
    ensures renamed == Failure(DatabaseConstraintException(NameExists("Concerts")))
  {
    var service := new CategoryServiceImpl();
    created := service.Create("Concerts");
    renamed := service.UpdateById(created.value.id, "Concerts");
  }
}
