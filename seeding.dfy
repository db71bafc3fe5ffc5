/**
 * The seeding entry point of manage_blogs.py (main): empty the blog table,
 * then upsert the four published posts. The long post bodies are parameters;
 * the slugs, card positions, titles, meta lines and summaries are the script's own.
 */
module Seeding {
  import opened Wrappers
  import ReadTime
  import opened BlogStore

  const Slug1: string := "engineering-with-ai-is-still-engineering"
  const Slug2: string := "reading-code-is-the-most-underrated-engineering-skill"
  const Slug3: string := "why-shipping-beats-perfect-side-projects"
  const Slug4: string := "why-i-write-documentation-even-when-no-one-is-watching"

  const Title1: string := "Engineering With AI Is Still Engineering"
  const Title2: string := "Reading Code Is the Most Underrated Engineering Skill"
  const Title3: string := "Why Shipping Beats Perfect Side Projects"
  const Title4: string := "Why I Write Documentation Even When No One Is Watching"

  const Meta1: string := "Software Engineering \U{2022} Artificial Intelligence \U{2022} 2026"
  const Meta2: string := "Engineering Culture \U{2022} Career Growth"
  const Meta3: string := "Career Growth \U{2022} Software Engineering"
  const Meta4: string := "Engineering Practice \U{2022} Communication \U{2022} Growth"

  const Summary1: string := "AI tools are changing how software is built, but engineering judgment and responsibility still matter."
  const Summary2: string := "Understanding existing systems matters more than writing new code in modern software teams."
  const Summary3: string := "Shipping small, imperfect projects teaches more than endlessly refining ideas that never leave your laptop."
  const Summary4: string := "Writing documentation for small projects builds habits that scale to real-world software teams."

  /** The table main leaves: the four posts upserted, in order, into an emptied table. */
  function SeededTable(body1: string, body2: string, body3: string, body4: string): Table {
    var t0: Table := map[];
    var t1 := Upserted(t0, NewRecord(Slug1, 1, Title1, Meta1, Summary1, body1, true));
    var t2 := Upserted(t1, NewRecord(Slug2, 2, Title2, Meta2, Summary2, body2, true));
    var t3 := Upserted(t2, NewRecord(Slug3, 3, Title3, Meta3, Summary3, body3, true));
    Upserted(t3, NewRecord(Slug4, 4, Title4, Meta4, Summary4, body4, true))
  }

  lemma SlugsDistinct()
    ensures Slug1 != Slug2 && Slug1 != Slug3 && Slug1 != Slug4
    ensures Slug2 != Slug3 && Slug2 != Slug4 && Slug3 != Slug4
  {
  }

  /** Four published records of distinct slugs upserted into an empty table: the shape main promises. */
  lemma FourUpsertsIntoEmpty(r1: BlogRecord, r2: BlogRecord, r3: BlogRecord, r4: BlogRecord)
    requires r1.slug != r2.slug && r1.slug != r3.slug && r1.slug != r4.slug
    requires r2.slug != r3.slug && r2.slug != r4.slug && r3.slug != r4.slug
    requires r1.published && r2.published && r3.published && r4.published
    ensures var t := Upserted(Upserted(Upserted(Upserted(map[], r1), r2), r3), r4);
      && t == map[r1.slug := r1, r2.slug := r2, r3.slug := r3, r4.slug := r4]
      && t.Keys == {r1.slug, r2.slug, r3.slug, r4.slug}
      && |t| == 4
      && (forall k :: k in t ==> t[k].published)
      && KeyedBySlug(t)
  {
  }

  /** Every record of a table built by upserting NewRecord results has its read time derived from its body. */
  lemma SeededReadTimes(body1: string, body2: string, body3: string, body4: string)
    ensures ReadTimesDerived(SeededTable(body1, body2, body3, body4))
  {
  }

  /**
   * Whatever bodies are given, the seeded table holds exactly four published
   * posts, one per slug, at card positions 1 to 4, with their read times
   * estimated from their bodies.
   */
  lemma SeededTableShape(body1: string, body2: string, body3: string, body4: string)
    ensures var t := SeededTable(body1, body2, body3, body4);
      && t.Keys == {Slug1, Slug2, Slug3, Slug4}
      && |t| == 4
      && t[Slug1].cardPosition == 1 && t[Slug2].cardPosition == 2
      && t[Slug3].cardPosition == 3 && t[Slug4].cardPosition == 4
      && (forall k :: k in t ==> t[k].published)
      && KeyedBySlug(t) && ReadTimesDerived(t)
  {
    SlugsDistinct();
    FourUpsertsIntoEmpty(
      NewRecord(Slug1, 1, Title1, Meta1, Summary1, body1, true),
      NewRecord(Slug2, 2, Title2, Meta2, Summary2, body2, true),
      NewRecord(Slug3, 3, Title3, Meta3, Summary3, body3, true),
      NewRecord(Slug4, 4, Title4, Meta4, Summary4, body4, true));
    SeededReadTimes(body1, body2, body3, body4);
  }

  /**
   * main: clear the table, then upsert the four posts. Whatever the table held
   * before, afterwards it holds exactly the four seeded posts.
   */
  method SeedBlogs(table: BlogTable, body1: string, body2: string, body3: string, body4: string)
    modifies table
    ensures table.Valid()
    ensures table.Contents() == SeededTable(body1, body2, body3, body4)
  {
    table.Clear();
    table.Upsert(Slug1, 1, Title1, Meta1, Summary1, body1, true);
    table.Upsert(Slug2, 2, Title2, Meta2, Summary2, body2, true);
    table.Upsert(Slug3, 3, Title3, Meta3, Summary3, body3, true);
    table.Upsert(Slug4, 4, Title4, Meta4, Summary4, body4, true);
  }
}
