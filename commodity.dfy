/** commodity.go: a tradable item. */
module Commodities {
  import opened Types
  import opened Errors
  import opened Entities
  import opened Categories

  /**
   * The category is held by id. The rare / non-marketable flags and the
   * average price are the fields the registry fills from schema messages.
   */
  datatype Commodity = Commodity(
    entity: DbEntity,
    categoryId: EntityID,
    fullName: string,
    averageCr: int,
    fdevId: FDevID,
    isRare: bool,
    isNonMarketable: bool)

  /** NewCommodity: a nil category is refused; otherwise every argument is stored verbatim. */
  function NewCommodity(id: EntityID, dbName: string, category: Option<Category>,
                        fullName: string, avgPrice: int, fdevId: FDevID): (r: Result<Commodity>)
    ensures category.None? <==> r == Err(MissingCategory)
    ensures r.Ok? ==> r.value.entity == DbEntity(id, dbName) && r.value.fullName == fullName
                      && r.value.averageCr == avgPrice && r.value.fdevId == fdevId
                      && r.value.categoryId == category.value.entity.id
  {
    match category
    case None => Err(MissingCategory)
    case Some(c) => Ok(Commodity(DbEntity(id, dbName), c.entity.id, fullName, avgPrice, fdevId, false, false))
  }

  /** Name: the full (UI) name when detail is positive, the database name otherwise. */
  function Name(c: Commodity, detail: int): (r: string)
    ensures detail > 0 ==> r == c.fullName
    ensures detail <= 0 ==> r == c.entity.dbName
  {
    if detail > 0 then c.fullName else c.entity.dbName
  }
}
