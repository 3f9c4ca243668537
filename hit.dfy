/** The persisted hit entity of the stats server. */
module Hits {
  import opened Wrappers

  /**
   * A row of the `hits` table. The id is generated by the database on insert;
   * the other columns are nullable as far as the entity is concerned.
   */
  datatype Hit = Hit(
    id: Option<int>,
    app: Option<string>,
    ip: Option<string>,
    uri: Option<string>,
    timestamp: Option<int>)
}
