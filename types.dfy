/**
 * The display records of lib/types.ts. A timestamp is the integer that
 * `new Date(publishedAt).getTime()` yields; the ISO string itself is not
 * modelled.
 */
module Types {
  import opened Options

  type Timestamp = int

  datatype Category = Category(id: string, name: string, slug: string, description: Option<string>)

  datatype Author = Author(id: string, name: string, slug: string, bio: Option<string>, avatar: Option<string>)

  datatype Tag = Tag(id: string, name: string, slug: string)

  datatype Article = Article(
    id: string,
    title: string,
    slug: string,
    excerpt: Option<string>,
    content: string,
    image: Option<string>,
    category: Category,
    tags: seq<Tag>,
    author: Author,
    publishedAt: Timestamp,
    featured: bool,
    views: nat)

  /** Sort key of "newest first": the publication time. */
  function PublishedKey(a: Article): int { a.publishedAt }

  /** Sort key of "oldest first": the negated publication time. */
  function OldestKey(a: Article): int { -a.publishedAt }

  /** Sort key of "most viewed first", `views || 0`; a view count is never null here. */
  function ViewsKey(a: Article): int { a.views }

  function IsFeatured(a: Article): bool { a.featured }
}
