/** The records the content API returns, reduced to the keys the clients read. */
module Records {
  import opened Wrappers

  /** A search hit. A missing `title` key reads as the empty title, as
      `manga.get("title", "")` does. */
  datatype Manga = Manga(id: string, title: string)

  /** An entry of a chapter list. `number` is the chapter's `number` key when
      it is present and `float(...)` accepts it; `None` otherwise. */
  datatype Chapter = Chapter(id: string, title: string, number: Option<real>)
}
