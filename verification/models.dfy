/** The domain records of `models/bookmark.go`: a bookmark with its
    denormalised author, and one page of bookmarks with the upstream
    pagination cursor. */
module Models {

  /** An instant as Unix nanoseconds. `time.Time.After` is the strict `>`
      on this scale. */
  type Time = int

  /** A Go slice, keeping apart the nil slice (serialised as JSON `null`)
      and a non-nil one, which may be empty (serialised as `[]`). */
  datatype GoSlice<T> = NilSlice | Slice(items: seq<T>) {

    /** The elements, the nil slice having none. */
    function Elems(): seq<T>
    {
      if NilSlice? then [] else items
    }
  }

  /** The slice a loop yields by appending each of `xs` in turn to `s`:
      appending nothing to a nil slice leaves it nil. */
  function AppendAll<T>(s: GoSlice<T>, xs: seq<T>): (r: GoSlice<T>)
    ensures r.Elems() == s.Elems() + xs
    ensures r.NilSlice? <==> s.NilSlice? && |xs| == 0
  {
    if |xs| == 0 then s else Slice(s.Elems() + xs)
  }

  datatype Author = Author(id: string, username: string, name: string)

  datatype Bookmark = Bookmark(
    id: string,
    tweetId: string,
    text: string,
    createdAt: Time,
    author: Author)

  datatype BookmarkResponse = BookmarkResponse(bookmarks: GoSlice<Bookmark>, nextToken: string)
}
