/**
 * The blog table that manage_blogs.py seeds: rows keyed by their unique slug,
 * an insert-or-update by slug (upsert_blog) and a delete of every row
 * (clear_blogs). The ORM session is modelled as an in-memory table of row
 * objects; a row that is updated is the same object with new field values.
 */
module BlogStore {
  import opened Wrappers
  import ReadTime

  /** The values a blog row holds. */
  datatype BlogRecord = BlogRecord(
    slug: string,
    cardPosition: int,
    title: string,
    meta: string,
    summary: string,
    content: string,
    readTime: Option<string>,
    published: bool)

  /** The abstract table: the record of every row, by slug. */
  type Table = map<string, BlogRecord>

  /** The record upsert_blog stores for its arguments; the read time is derived from the content. */
  function NewRecord(slug: string, cardPosition: int, title: string, meta: string,
                     summary: string, content: string, published: bool): BlogRecord
  {
    BlogRecord(slug, cardPosition, title, meta, summary, content,
               ReadTime.EstimateReadTime(Some(content)), published)
  }

  /** Every row sits under its own slug, so slugs are unique. */
  predicate KeyedBySlug(t: Table) {
    forall k :: k in t ==> t[k].slug == k
  }

  /** Every row's read time is the estimate of its content. */
  predicate ReadTimesDerived(t: Table) {
    forall k :: k in t ==> t[k].readTime == ReadTime.EstimateReadTime(Some(t[k].content))
  }

  /** The table after upserting r: the row under r.slug becomes r, whether it existed or not. */
  function Upserted(t: Table, r: BlogRecord): Table {
    t[r.slug := r]
  }

  /** After an upsert the slug holds the new record, and every row with another slug is unchanged. */
  lemma UpsertSetsRow(t: Table, r: BlogRecord)
    ensures Upserted(t, r).Keys == t.Keys + {r.slug}
    ensures Upserted(t, r)[r.slug] == r
    ensures forall k :: k in t && k != r.slug ==> Upserted(t, r)[k] == t[k]
  {
  }

  /** Updating an existing slug keeps the row count. */
  lemma UpsertExistingKeepsCount(t: Table, r: BlogRecord)
    requires r.slug in t
    ensures |Upserted(t, r)| == |t|
  {
  }

  /** Inserting a new slug adds exactly one row. */
  lemma UpsertNewAddsOne(t: Table, r: BlogRecord)
    requires r.slug !in t
    ensures |Upserted(t, r)| == |t| + 1
  {
  }

  /** Repeating an upsert leaves the table as the first one left it. */
  lemma UpsertIdempotent(t: Table, r: BlogRecord)
    ensures Upserted(Upserted(t, r), r) == Upserted(t, r)
  {
  }

  /** Upserting the same slug twice leaves one row, with the later values. */
  lemma UpsertLastWins(t: Table, r1: BlogRecord, r2: BlogRecord)
    requires r1.slug == r2.slug
    ensures Upserted(Upserted(t, r1), r2) == Upserted(t, r2)
  {
  }

  /** An upsert of a record built by NewRecord keeps slugs unique and read times derived. */
  lemma UpsertKeepsInvariants(t: Table, slug: string, cardPosition: int, title: string, meta: string,
                              summary: string, content: string, published: bool)
    requires KeyedBySlug(t) && ReadTimesDerived(t)
    ensures var u := Upserted(t, NewRecord(slug, cardPosition, title, meta, summary, content, published));
      KeyedBySlug(u) && ReadTimesDerived(u)
  {
  }

  /** A row of the blog table; upsert_blog assigns its fields in place. */
  class Blog {
    var slug: string
    var cardPosition: int
    var title: string
    var meta: string
    var summary: string
    var content: string
    var readTime: Option<string>
    var published: bool

    constructor (r: BlogRecord)
      ensures Record() == r
    {
      slug, cardPosition, title, meta := r.slug, r.cardPosition, r.title, r.meta;
      summary, content, readTime, published := r.summary, r.content, r.readTime, r.published;
    }

    function Record(): BlogRecord
      reads this
    {
      BlogRecord(slug, cardPosition, title, meta, summary, content, readTime, published)
    }

    /** The update branch of upsert_blog: every field but the slug takes the given value. */
    method Assign(r: BlogRecord)
      requires r.slug == slug
      modifies this
      ensures Record() == r
    {
      cardPosition := r.cardPosition;
      title := r.title;
      meta := r.meta;
      summary := r.summary;
      content := r.content;
      readTime := r.readTime;
      published := r.published;
    }
  }

  /**
   * If every row but the one under slug still holds its record in `before`,
   * the table's records are those of `before` with the row under slug replaced
   * by what its row object now holds.
   */
  lemma RowsAgreeExcept(table: BlogTable, slug: string, before: Table)
    requires table.Valid() && slug in table.rows && table.rows.Keys == before.Keys + {slug}
    requires forall k :: k in table.rows && k != slug ==> table.rows[k].Record() == before[k]
    ensures table.Contents() == before[slug := table.rows[slug].Record()]
  {
  }

  /** Adding a row under a new slug adds exactly its object to the row objects. */
  lemma ValuesAfterInsert(rows: map<string, Blog>, slug: string, blog: Blog)
    requires slug !in rows
    ensures rows[slug := blog].Values == rows.Values + {blog}
  {
    var after := rows[slug := blog];
    forall b | b in after.Values ensures b in rows.Values + {blog} {
      var k :| k in after && after[k] == b;
      if k != slug { assert rows[k] == b; }
    }
    forall b | b in rows.Values ensures b in after.Values {
      var k :| k in rows && rows[k] == b;
      assert after[k] == b;
    }
    assert slug in after && after[slug] == blog;
  }

  /** The blog table: one row object per slug. */
  class BlogTable {
    var rows: map<string, Blog>
    /** The table and its row objects. */
    ghost var Repr: set<object>

    /** Each row is stored under its own slug; distinct slugs therefore hold distinct objects. */
    ghost predicate Valid()
      reads this, Repr
    {
      && Repr == {this} + rows.Values
      && forall k :: k in rows ==> rows[k].slug == k
    }

    function Contents(): Table
      requires Valid()
      reads this, Repr
    {
      map k | k in rows :: rows[k].Record()
    }

    constructor ()
      ensures Valid() && fresh(Repr) && Contents() == map[]
    {
      rows := map[];
      Repr := {this};
    }

    /** clear_blogs: delete every row. */
    method Clear()
      modifies this
      ensures Valid() && Repr == {this} && Contents() == map[]
    {
      rows := map[];
      Repr := {this};
    }

    /**
     * upsert_blog: if a row has this slug, assign every field but the slug on
     * that same row; otherwise add one new row. Either way the row holds the
     * given values and the read time estimated from the content.
     */
    method Upsert(slug: string, cardPosition: int, title: string, meta: string,
                  summary: string, content: string, published: bool)
      requires Valid()
      modifies Repr
      ensures Valid() && fresh(Repr - old(Repr))
      ensures Contents() == Upserted(old(Contents()), NewRecord(slug, cardPosition, title, meta, summary, content, published))
      ensures slug in old(rows) ==> rows == old(rows)
      ensures slug in rows && (slug !in old(rows) ==> fresh(rows[slug]))
      ensures slug !in old(rows) ==> rows == old(rows)[slug := rows[slug]]
    {
      var readTime := ReadTime.EstimateReadTime(Some(content));
      ghost var before := Contents();
      if slug in rows {
        var blog := rows[slug];
        blog.Assign(BlogRecord(slug, cardPosition, title, meta, summary, content, readTime, published));
        forall k | k in rows && k != slug ensures rows[k].Record() == before[k] {

        }
        RowsAgreeExcept(this, slug, before);
      } else {
        var blog := new Blog(BlogRecord(slug, cardPosition, title, meta, summary, content, readTime, published));
        ValuesAfterInsert(rows, slug, blog);
        rows := rows[slug := blog];
        Repr := Repr + {blog};
        forall k | k in rows && k != slug ensures rows[k].Record() == before[k] {
          assert rows[k] == old(rows[k]);
        }
        RowsAgreeExcept(this, slug, before);
      }
    }
  }
}
