/**
 * The read-only project catalog that every screen imports from its JSON
 * fixture, and the optional-value wrapper used for `undefined` and `null`.
 */
module Catalog {

  datatype Option<T> = None | Some(value: T)

  /**
   * One catalog record. Only the fields the screens compute with are kept;
   * an absent `featured` flag reads as `false`.
   */
  datatype Project = Project(
    id: int,
    title: string,
    description: string,
    location: string,
    category: string,
    status: string,
    featured: bool
  )
}
