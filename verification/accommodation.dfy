/** A place to stay on a journey, offered with between 1 and 50 pictures. */
module Accommodations {
  import opened Wrappers
  import SortedSets

  type AccommodationId = string

  /** Pictures are equal when their urls are. */
  datatype Picture = Picture(url: string, caption: string)

  function PictureUrl(p: Picture): string {
    p.url
  }

  /** `Place` (a name and a geohash) is carried along unchanged. */
  datatype Place = Place(name: string, location: string)

  datatype Accommodation = Accommodation(id: AccommodationId, name: string, place: Place, pictures: SortedSets.SortedSet<Picture>)

  datatype AccommodationError = TooFewPictures | TooManyPictures

  const MAX_PICTURES := 50

  /** `build`: at least one and at most 50 pictures. */
  function Build(id: AccommodationId, name: string, place: Place, pictures: SortedSets.SortedSet<Picture>): (r: Result<Accommodation, AccommodationError>)
    ensures r == Err(TooFewPictures) <==> |pictures| == 0
    ensures r == Err(TooManyPictures) <==> |pictures| > MAX_PICTURES
    ensures r.Ok? ==> r.value == Accommodation(id, name, place, pictures)
  {
    if |pictures| == 0 then Err(TooFewPictures)
    else if |pictures| > MAX_PICTURES then Err(TooManyPictures)
    else Ok(Accommodation(id, name, place, pictures))
  }

  /** `PartialEq`: accommodations are equal when their ids are. */
  function Key(a: Accommodation): AccommodationId {
    a.id
  }
}
