/** category.go: a named group of commodities. */
module Categories {
  import opened Types
  import opened Text
  import opened Entities

  /** The commodities of a category are held by id. */
  datatype Category = Category(entity: DbEntity, commodities: seq<EntityID>)

  /** NewCategory: id and name verbatim, no commodities yet. */
  function NewCategory(id: EntityID, dbName: string): (c: Category)
    ensures c.entity.id == id && c.entity.dbName == dbName
    ensures c.commodities == []
  {
    Category(DbEntity(id, dbName), [])
  }

  /**
   * Name: the stored name in upper case, whatever the detail level: it
   * folds to the stored name and holds no lower-case letter.
   */
  function Name(c: Category, detail: int): (r: string)
    ensures |r| == |c.entity.dbName|
    ensures EqualFold(r, c.entity.dbName)
    ensures forall i :: 0 <= i < |r| ==> !('a' <= r[i] <= 'z')
  {
    LowerOfUpper(c.entity.dbName);
    Upper(c.entity.dbName)
  }

  /**
   * The display name differs from the stored one only in letter case, and
   * does not depend on the detail argument.
   */
  lemma NameFoldsToDbName(c: Category, d1: int, d2: int)
    ensures EqualFold(Name(c, d1), c.entity.dbName)
    ensures Name(c, d1) == Name(c, d2)
  {
    LowerOfUpper(c.entity.dbName);
  }
}
