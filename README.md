# Blog seeding of the portfolio site, modelled in Dafny

The portfolio site fills its blog table from a seeding script, `manage_blogs.py`.
This project models that script's logic and proves properties about it:

* `estimate_read_time` is modelled in module `ReadTime` (`read_time.dfy`). It splits a body into
  whitespace-separated words. Whitespace is the set Python's `str.isspace` accepts.
  It divides the word count by 200 words per minute, rounds up, and formats the result
  as `"<N> min read"`. Absent or empty text has no estimate (`None`).
* `upsert_blog` and `clear_blogs` are modelled in module `BlogStore` (`blog_store.dfy`).
  The table is a class `BlogTable` that holds one `Blog` row object per slug.
  `Upsert` finds the row by slug. If the row exists, `Upsert` assigns the row's fields in place.
  Otherwise it adds one new row. The read time is always derived from the content.
  `Clear` deletes every row. `Contents()` gives the table's abstract value, a map from slug to
  `BlogRecord`. `Upserted` is the pure specification of one upsert on that map.
  `BlogTable.Valid` keeps every row under its own slug and makes `Repr` exactly the table
  and its row objects.
* `main` is modelled in module `Seeding` (`seeding.dfy`) as `SeedBlogs`. It clears the table and
  then upserts the four posts in order. `SeededTable` is its specification.
  `SeededTableShape` proves the properties `main` promises.
* `Wrappers` (`wrappers.dfy`) holds the `Option` type, which models Python's `None`-or-value results.

`estimate_read_time` returns `None` only when `not text` holds (manage_blogs.py:15-16). Text that
is non-empty but consists only of whitespace is truthy and has zero words, so it gets
`"0 min read"`. `ReadTime.WhitespaceOnlyIsZeroMinutes` states this case.

## Model

| member | source | states |
|---|---|---|
| `ReadTime.LeadingWord` | manage_blogs.py:18 | the first word of a text: a prefix with no whitespace that is followed by whitespace or by the end of the text |
| `ReadTime.Split` | manage_blogs.py:18 | every token that `text.split()` yields is non-empty and holds no whitespace |
| `ReadTime.WordCountIsWordStarts` | manage_blogs.py:18 | the number of tokens equals the number of positions that begin a word (a non-whitespace character that is first or follows whitespace) |
| `ReadTime.NoWordsIffAllSpace` | manage_blogs.py:18 | a text has no words exactly when every character in it is whitespace |
| `ReadTime.Minutes` | manage_blogs.py:19 | the minute count m covers the words (200·m ≥ words), and one minute fewer would not |
| `ReadTime.MinutesIsLeast` | manage_blogs.py:19 | the minute count is the least n with 200·n ≥ words |
| `ReadTime.MinutesBoundaries` | manage_blogs.py:19 | 0 words give 0 minutes, 1–200 words give 1, 201–400 words give 2 |
| `ReadTime.NatToString` | manage_blogs.py:20 | the numeral is non-empty, all decimal digits, with no leading zero unless the number is 0 |
| `ReadTime.NatToStringRoundTrip` | manage_blogs.py:20 | reading the numeral's digits back gives the number |
| `ReadTime.ReadTimeRoundTrip` | manage_blogs.py:20 | `"<N> min read"` parses back to N |
| `ReadTime.FormatReadTimeInjective` | manage_blogs.py:20 | distinct minute counts format to distinct strings |
| `ReadTime.EstimateReadTime` | manage_blogs.py:15-16 | the estimate is `None` exactly when the text is absent or empty |
| `ReadTime.EstimateMeaning` | manage_blogs.py:15-20 | for non-empty text the estimate is present, and it reads back as the least n with 200·n at least the number of word beginnings |
| `ReadTime.EstimateBoundaries` | manage_blogs.py:18-20 | 1–200 words give `"1 min read"`; 201–400 words give `"2 min read"` |
| `ReadTime.WhitespaceOnlyIsZeroMinutes` | manage_blogs.py:15-20 | non-empty text made only of whitespace gives `"0 min read"`, not `None` |
| `BlogStore.UpsertSetsRow` | manage_blogs.py:48-71 | after an upsert the slug holds the new record; the slugs are the old ones plus this one; every row with another slug is unchanged |
| `BlogStore.UpsertExistingKeepsCount` | manage_blogs.py:52-59 | updating an existing slug keeps the row count |
| `BlogStore.UpsertNewAddsOne` | manage_blogs.py:60-71 | upserting an absent slug adds exactly one row |
| `BlogStore.UpsertIdempotent` | manage_blogs.py:44-45 | repeating the same upsert leaves the table identical |
| `BlogStore.UpsertLastWins` | manage_blogs.py:44-59 | two upserts of one slug leave one row with the later values |
| `BlogStore.UpsertKeepsInvariants` | manage_blogs.py:50-70 | an upsert keeps every row under its own slug (slugs unique) and every stored read time equal to the estimate of the stored content |
| `BlogStore.Blog.constructor` | manage_blogs.py:61-70 | a new row holds exactly the given values |
| `BlogStore.Blog.Assign` | manage_blogs.py:52-59 | updating a row in place gives it exactly the given values, with its slug kept |
| `BlogStore.BlogTable.Clear` | manage_blogs.py:23-29 | the table is empty afterwards |
| `BlogStore.BlogTable.Upsert` | manage_blogs.py:32-71 | the table's records become `Upserted(old records, NewRecord(arguments))`, with the read time estimated from the content; an existing row is the same object, updated in place; otherwise the row is a fresh object and every other slug keeps its row object |
| `Seeding.SlugsDistinct` | manage_blogs.py:82-161 | the four seeded slugs are pairwise distinct |
| `Seeding.FourUpsertsIntoEmpty` | manage_blogs.py:80-183 | four upserts of distinct, published records into an emptied table leave exactly those four records, all published |
| `Seeding.SeededReadTimes` | manage_blogs.py:50-183 | every seeded row's read time is the estimate of its body |
| `Seeding.SeededTableShape` | manage_blogs.py:79-183 | main leaves exactly four published posts, under the four distinct slugs, at card positions 1, 2, 3 and 4, with read times derived from their bodies |
| `Seeding.SeedBlogs` | manage_blogs.py:74-185 | whatever the table held before, it ends up holding exactly the seeded table |

## Left out

- The database session is not modelled. This covers `db.session.commit()` (lines 29 and 185), `db.session.add` as a separate pending step, `server.app_context()` and the final `print`. The table is an in-memory store, and each operation takes effect at once.
- `models.py` is not part of this model. The `Blog` model's other columns (a primary key, the `updated_at` timestamp) and `Blog.get_published` are therefore absent.
- The slug lookup `Blog.query.filter_by(slug=slug).first()` is a map lookup. The unique-slug invariant (`BlogTable.Valid`) guarantees at most one match.
- The long post bodies in `main` are parameters of `SeedBlogs`. The slugs, card positions, titles, meta lines and summaries are the script's own literals.
- `SeedBlogs` passes `published` as `true` explicitly. The script relies on `upsert_blog`'s default `published=True`.
- `ReadTime.Minutes` uses exact integer ceiling division, `(words + 199) / 200`. Python's `math.ceil(words / 200)` first rounds the quotient to a float. The two differ only for word counts above 200·2^46 (about 1.4·10^16).
- `ReadTime.EstimateReadTime` takes a string or `None`. Python's `not text` test also accepts other falsy objects, which the script never passes.
- `BlogStore.BlogTable.Upsert` takes `content` as a string. The script never passes `None` there.
- `BlogStore.BlogTable.Upsert` states that other rows are unchanged at the level of the records in `Contents()`. It also states that they are the same row objects. It does not say that the fields of those objects are untouched.
- The Flask handlers, e-mail sending, sitemap and robots routes, and the form classes (`server.py`, `forms.py`) are outside this model. They are request glue and library configuration.
