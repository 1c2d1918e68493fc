/** The post record the client reads from and sends to the `/blogs` endpoints. */
module Blogs {
  import opened Wrappers

  /**
   * A post as the list and detail views receive it. `category` is an
   * `Option` because every view reads it through `blog.category?`, so a
   * post without the array must not break them.
   */
  datatype Blog = Blog(
    id: string,
    title: string,
    category: Option<seq<string>>,
    description: string,
    date: string,
    coverImage: string,
    content: string)

  /** The body of a creation request: a post without its identifier. */
  datatype NewBlog = NewBlog(
    title: string,
    category: seq<string>,
    description: string,
    date: string,
    coverImage: string,
    content: string)

  /** What `blog.category?.forEach` / `.map` visit: the array, or nothing when it is absent. */
  function CategoriesOf(b: Blog): seq<string> {
    if b.category.Some? then b.category.value else []
  }
}
