/** The record the upstream cat-breeds API returns, one per breed. */
module Breeds {

  /** A breed as decoded from the upstream JSON; `country` is the field
      that grouping moves into the map key and then clears. */
  datatype CatBreed = CatBreed(
    breed: string,
    origin: string,
    coat: string,
    pattern: string,
    country: string)
}
