# Bookshelf plugin — a Dafny model

This project models the core of a WordPress plugin that manages a catalogue
of books: a `book` post type carrying author, publication year, ISBN and
page count as meta fields, and a `genre` taxonomy carrying a colour and an
extended description as term meta. The model covers these parts:

- **The REST routes under `bookshelf/v1`** (`book_endpoints.dfy`, `book_stats.dfy`):
  - the query description that the book list route builds from its parameters;
  - the get, create, partial-update and delete handlers, acting on the host's post store;
  - the statistics route, which builds a per-year histogram and a top-ten list of authors.
- **The REST helpers** (`helpers.dfy`): the response shape of a book, the title, author and year validators, the genre-list sanitiser, and the argument schema shared by the create and update routes.
- **The admin hooks of the post type** (`cpt_book.dfy`): the details meta box's save hook, plus the columns and cells of the book list table.
- **The admin hooks of the taxonomy** (`taxonomy_genre.dfy`): the term-field save hook, the colour column, and the colour that the edit form shows.
- **The React front end's state logic** (`app.dfy`):
  - the component state as a class whose fields are the state hooks and whose methods are the handlers;
  - the parameters of the list request;
  - the submit decision (client-side validation, verb and path);
  - the genre checkbox toggle;
  - the author and year filter options;
  - the pagination buttons.

Supporting modules:

- `php.dfy` holds PHP's value semantics: string truthiness, `trim`, the `(int)` cast and `absint`.
- `php_array.dfy` holds ordered associative arrays, where assigning to a key replaces the value in place or appends a new entry.
- `sorting.dfy` holds the descending sort used for `arsort` and for the year list.
- `strings.dfy` holds decimal text, trimming and `implode`.
- `host.dfy` holds the host's content store. It is a `Site` class with maps of posts and terms; meta values are text, and a missing single value reads as `""`.
- `wrappers.dfy` holds `Option`.

Everything the host provides without showing its code is a parameter of the model:

- the text sanitisers and escapers;
- nonce and capability verdicts;
- the autosave flag;
- the current user and time;
- the fresh post id;
- the failure of an insert, update or delete;
- the query engine's results.

## Model

| member | source | states |
|---|---|---|
| Php.AbsintText | includes/cpt-book.php:165-167 | a numeric field saved through `absint` is stored as decimal digits whose integer value is the non-negative absolute value of the posted number |
| Php.AbsintTextIdempotent | includes/cpt-book.php:173-175 | running `absint` again on a stored number leaves it unchanged |
| Php.IntCastOfDecimal | includes/rest/register-book-endpoints.php:258-267 | an integer written as meta text reads back as the same integer |
| Php.IntMetaTruthy | includes/rest/register-book-endpoints.php:258-267 | a non-zero year or page count is stored as truthy text |
| Sorting.SortDesc | includes/rest/register-book-endpoints.php:392 | the `arsort` result has the same entries as its input (as a multiset) and is ordered by non-increasing count |
| Sorting.SortDescMembers | includes/rest/register-book-endpoints.php:392 | sorting neither adds nor drops an entry |
| Host.TheTerms | includes/rest/helpers.php:12 | `get_the_terms` gives false when the post has no existing genre term, and otherwise the post's genre terms in assignment order |
| Host.Unique | includes/taxonomy-genre.php:31 | assigning terms of the hierarchical genre taxonomy keeps each id once, where it first occurs; the ids kept are exactly the ids given; a list without repeats is kept as it is |
| Helpers.GenreData | includes/rest/helpers.php:13-24 | one entry per term, in term order, carrying the term's id, name and slug and its stored colour |
| Helpers.FormatBook | includes/rest/helpers.php:11-40 | id, title, content, excerpt and both dates are copied from the post; the four meta fields are stored values (`""` when missing); the genres are one entry per assigned term, in order, each with the term's id, name, slug and stored colour; there are no genres when the lookup gives false or an error |
| Helpers.NonBlank | includes/rest/helpers.php:43-49 | `!empty(trim(...))`: true exactly when the text has a character outside PHP's trim set and its trimmed form is not "0" |
| Helpers.ValidateTitle | includes/rest/helpers.php:43-45 | the title validator is exactly the non-blank condition |
| Helpers.ValidateAuthor | includes/rest/helpers.php:47-49 | the author validator is exactly the same non-blank condition |
| Helpers.ZeroIsBlank | includes/rest/helpers.php:43-49 | "0", with or without surrounding white space, is refused as a title and as an author |
| Helpers.ValidateYear | includes/rest/helpers.php:51-53 | on the value as the request carries it: a number passes exactly when 1000 <= year <= the current year, and so does numeric text, by its integer value |
| Helpers.DecimalYearText | includes/rest/helpers.php:51-53 | a year sent as decimal text is judged exactly as the same year sent as a number |
| Helpers.BlankYearRefused | includes/rest/helpers.php:51-53 | the blank year `""` is refused |
| Helpers.JunkYearPassesAsOne | includes/rest/helpers.php:51-53 | in any year from 2000 to 9999, the text "1a" passes the check, and the `absint` sanitiser then turns it into the year 1 |
| Helpers.ValidateOptionalYear | includes/rest/helpers.php:51-53 | the intended check: a blank year passes; any other accepted value is a whole year from 1000 to the current year that `absint` leaves unchanged; on numbers and numeric text it agrees with the check as written |
| Helpers.ValidYearStaysValid | includes/rest/helpers.php:51-53 | a number or numeric text that is a valid year now stays valid in later years |
| Helpers.ValidatedYearSurvivesSanitize | includes/rest/helpers.php:86-90 | a number or numeric text that passed the year check comes out of the `absint` sanitiser as that same year, stored as its decimal text |
| Helpers.ToArray | includes/rest/helpers.php:61 | the `(array)` cast: null gives an empty list, a scalar a one-element list, and a list stays as it is |
| Helpers.SanitizeGenres | includes/rest/helpers.php:60-62 | as many ids as the cast input has elements, each the `absint` of its element |
| Helpers.SanitizeGenresIdempotent | includes/rest/helpers.php:60-62 | sanitising an already sanitised genre list changes nothing |
| Helpers.CommonBookArgs | includes/rest/helpers.php:70-106 | the shared schema has exactly the keys title, content, author, published_year, isbn, pages and genres, in that order, and none of them is required |
| Helpers.CommonBookArgsCallbacks | includes/rest/helpers.php:70-106 | title and author carry the non-blank validators; published_year carries the year validator and `absint`; pages carries `absint`; genres carries the genre sanitiser |
| Helpers.CreateBookArgsRequired | includes/rest/register-book-endpoints.php:77-80 | the create schema keeps the shared keys and their order, marks title and author (only) as required, and leaves every other entry as it was |
| BookEndpoints.TextOr | includes/rest/register-book-endpoints.php:137-144 | `?:` on a text parameter: the value when it is truthy, otherwise the default |
| BookEndpoints.IntOr | includes/rest/register-book-endpoints.php:137-144 | `?:` on an integer parameter: the value when it is non-zero, otherwise the default |
| BookEndpoints.SortOrder | includes/rest/register-book-endpoints.php:155-169 | title sorts by title; author sorts by `meta_value` on author; year sorts by `meta_value_num` on published_year; anything else sorts by date |
| BookEndpoints.MetaFilters | includes/rest/register-book-endpoints.php:183-200 | an author clause when the author is truthy, then a year clause when the year is truthy, in that order and nothing else |
| BookEndpoints.BuildQueryArgs | includes/rest/register-book-endpoints.php:136-205 | the query always asks for published books; the defaults are 10 per page, page 1, date order and DESC; the genre clause (by slug) is present exactly when the genre is truthy; the meta query is present exactly when some meta clause is; the search is present exactly when it is truthy |
| BookEndpoints.SchemaBoundsQuery | includes/rest/register-book-endpoints.php:33-66 | if the declared bounds were enforced, the query would ask for 1 to 100 books per page, a page of at least 1, ASC or DESC, and one of the four supported orderings |
| BookEndpoints.SchemaNotEnforced | includes/rest/register-book-endpoints.php:33-66 | the bounds are not enforced: any non-zero page size reaches the query as it is, 500 included, and so does any truthy order, "foo" included, though both lie outside the declared bounds |
| BookEndpoints.GetBook | includes/rest/register-book-endpoints.php:222-231 | not-found with status 404 exactly when the id is missing or is not a book; otherwise the formatted book for that id |
| BookEndpoints.NewBookReadsBack | includes/rest/register-book-endpoints.php:243-272 | a created book has the given title; its content is `""` when the given content is falsy; the author is always stored; year, ISBN and pages are stored only when truthy; genres are stored only from a non-empty list |
| BookEndpoints.StoreNewBook | includes/rest/register-book-endpoints.php:251-272 | the insert, the meta writes and the genre assignment add exactly the new book to the store |
| BookEndpoints.CreateBook | includes/rest/register-book-endpoints.php:234-276 | the create handler as its error check intends it: a failed insert gives creation-failed with status 500 and stores nothing; on success exactly the new book is added, the terms are unchanged, and the response is what a get of the new id returns |
| BookEndpoints.CreateBookAsWritten | includes/rest/register-book-endpoints.php:251-276 | as written: a failed insert (the id 0) stores nothing and answers status 200 with the formatted null post; a successful insert behaves as in CreateBook |
| BookEndpoints.UpdateChangesOnlySupplied | includes/rest/register-book-endpoints.php:287-321 | after an update, each supplied field reads back as supplied (the genres without repeated ids); every field not supplied and every other meta key keeps its old value |
| BookEndpoints.UpdateIdempotent | includes/rest/register-book-endpoints.php:287-321 | repeating the same update changes nothing more |
| BookEndpoints.UpdateBook | includes/rest/register-book-endpoints.php:279-325 | the update handler as its error check intends it: a missing or non-book id gives not-found and the store is unchanged; a failed post update gives update-failed with status 500 before any meta or genre write; otherwise only that book changes, to the updated book, and the response is what a get returns |
| BookEndpoints.UpdateBookAsWritten | includes/rest/register-book-endpoints.php:279-325 | as written: a missing or non-book id gives not-found; a failed post update keeps title, content and modification time but still writes every supplied meta field and the genres, and answers status 200 with the book; a successful update behaves as in UpdateBook |
| BookEndpoints.FailedUpdateStillWrites | includes/rest/register-book-endpoints.php:297-309 | after a failed post update, a supplied author that differs from the stored one is still written, so the book changes, while its title, content and modification time stay |
| BookEndpoints.DeleteBook | includes/rest/register-book-endpoints.php:328-343 | a missing or non-book id gives not-found and nothing changes; a failed delete gives delete-failed with status 500 and nothing changes; otherwise the response is deleted-with-id, the id leaves the store, and a later get is not-found |
| BookEndpoints.CreateThenGet | includes/rest/register-book-endpoints.php:274-275 | reading back a created book gives its id, title and author; the content, ISBN, year and pages when they were truthy (the numbers as decimal text); and `""` for each of those that was falsy |
| BookEndpoints.StoredYearReadsBack | includes/rest/register-book-endpoints.php:259-261 | a stored year cast back to an integer equals the year that was given |
| BookStats.CountsDistinct | includes/rest/register-book-endpoints.php:364-369 | the counting array holds each value under one key only |
| BookStats.CountsCount | includes/rest/register-book-endpoints.php:364-369 | a value's count is the number of posts carrying that truthy value, and a value is present exactly when that number is positive |
| BookStats.CountsSum | includes/rest/register-book-endpoints.php:364-369 | the counts add up to the number of posts with a truthy value |
| BookStats.GetCountStep | includes/rest/register-book-endpoints.php:366-368 | one loop step adds one to the truthy value's count (or starts it at 1) and leaves every other count alone |
| BookStats.CountValues | includes/rest/register-book-endpoints.php:384-390 | the counting loop returns the counting array: distinct keys, each value's count equal to its number of posts, and a total equal to the number of posts with a truthy value |
| BookStats.TopTenMeaning | includes/rest/register-book-endpoints.php:392-393 | the top list has min(n, 10) entries ordered by non-increasing count; every entry is an author with that author's count; with at most ten authors all of them appear; no author left out has more books than one listed |
| BookStats.GetStats | includes/rest/register-book-endpoints.php:346-401 | the response passes both totals through; each year's count is the number of books with that year; the counts sum to the number of books with a year; the top authors are at most ten, sorted, and each carries its full count |
| BookStats.CreatedBookCountsOnce | includes/rest/register-book-endpoints.php:364-369 | once a book created with a truthy year is counted, that year's count goes up by one and every other year's count is unchanged |
| CptBook.PostedAbsint | includes/cpt-book.php:165-175 | a numeric field is written exactly when posted, as its `absint` text |
| CptBook.SaveBookDetails | includes/cpt-book.php:143-176 | a missing or invalid nonce, an autosave, or a user without rights leaves the store unchanged; otherwise only this post's meta changes, to the four conditional writes |
| CptBook.SavedDetailsFields | includes/cpt-book.php:161-175 | author, year, ISBN and pages are each written exactly when their field is posted (text through the sanitiser, numbers through `absint`); every other key keeps its value |
| CptBook.SavedNumbers | includes/cpt-book.php:165-175 | a saved year or page count is decimal digits, non-negative, equal to the `absint` of the posted number, and unchanged by a second save |
| CptBook.BookColumns | includes/cpt-book.php:180-190 | the columns are exactly cb, title, author, published_year, genre and date, in that order, each once |
| CptBook.BookColumnsLabels | includes/cpt-book.php:180-190 | cb, title and date keep their incoming labels (null when missing); the three book columns carry fixed labels; every other incoming column is dropped |
| CptBook.BookCustomColumn | includes/cpt-book.php:193-211 | the author and year cells show the escaped meta value; the genre cell shows the escaped term names joined by ", ", or nothing when the lookup gives false or an error; any other column shows nothing |
| CptBook.GenreCellNamesEveryGenre | includes/cpt-book.php:201-208 | the genre cell's text contains the name of every genre of the book |
| Host.Posted | includes/taxonomy-genre.php:111-117 | a form field yields a value exactly when it is posted, and that value is the posted text through the field's sanitiser (also used for the text fields of includes/cpt-book.php:161-171) |
| TaxonomyGenre.SaveGenreFields | includes/taxonomy-genre.php:106-118 | unless the third argument is the string "genre", nothing changes; otherwise only this term's meta changes, to the two conditional writes |
| TaxonomyGenre.OnGenreTermSaved | includes/taxonomy-genre.php:106-121 | registered as written on the genre hooks, whose third argument is an array of term arguments, the save function changes no post and no term |
| TaxonomyGenre.OnTermSaved | includes/taxonomy-genre.php:106-118 | called with the taxonomy name, as the function's signature intends: a genre term gets the two conditional writes, and a term of any other taxonomy is left alone |
| TaxonomyGenre.SavedGenreFieldsIndependent | includes/taxonomy-genre.php:111-117 | the colour and the extended description are each written exactly when posted, independently of each other; every other key keeps its value |
| TaxonomyGenre.AddGenreColumns | includes/taxonomy-genre.php:123-126 | adds genre_color labelled "Color"; every other column keeps its label and position; the new column is appended only when it was not there already |
| TaxonomyGenre.GenreColumnContent | includes/taxonomy-genre.php:129-137 | content passes through unchanged unless the column is genre_color and a truthy colour is stored, in which case the cell is a swatch of the escaped colour |
| TaxonomyGenre.EditFormColor | includes/taxonomy-genre.php:86 | the stored colour when there is one, otherwise #000000 |
| TaxonomyGenre.SavedColorIsShown | includes/taxonomy-genre.php:86 | once a colour is saved with the taxonomy name passed, the edit form shows the sanitised colour, or black when the sanitiser rejected it |
| TaxonomyGenre.SavedColorShownInColumn | includes/taxonomy-genre.php:129-137 | once a colour is saved with the taxonomy name passed, the colour column shows a swatch of the escaped sanitised colour, or keeps its content when the sanitiser rejected it |
| App.IntCastOfJsInt | src/App.js:90-95 | the server's integer cast reads back the page size and page number that the client wrote |
| App.Param | src/App.js:90-100 | a parameter is absent exactly when no entry carries its name |
| App.ListParamsNames | src/App.js:90-100 | the names are always per_page, page, orderby and order, followed by search, genre, author and year, each only when it is non-empty, in that order |
| App.ListParam | src/App.js:90-100 | each parameter's value: the page size and page as decimal text, the sort fields as held, and each filter exactly when it is non-empty |
| App.AppendIfSet | src/App.js:97-100 | `params.append` applied only to a non-empty value |
| App.ServerReadsListParams | src/App.js:90-100 | the list route receives the client's page size and page, its sort order, and each filter exactly when it is non-empty (the year read as an integer) |
| App.RemoveAllMeaning | src/App.js:657 | unchecking drops every occurrence of the id, keeps the count of every other id, and keeps the remaining ids in order |
| App.ToggleGenre | src/App.js:655-657 | checking appends the id; unchecking removes every occurrence of it |
| App.ToggleOnOff | src/App.js:655-657 | checking then unchecking a box that was unchecked restores the list; after a check, an uncheck removes the id entirely |
| App.DedupMeaning | src/App.js:264-265 | the `Set` spread keeps each value once, keeps exactly the values of its input, and keeps first-appearance order |
| App.UniqueAuthorsMeaning | src/App.js:264 | the author options are the distinct non-empty authors of the listed books, with no repeats, in first-appearance order |
| App.UniqueYearsMeaning | src/App.js:265 | the year options are the distinct non-empty years of the listed books, with no repeats, sorted in descending numeric order |
| App.PaginationStaysInRange | src/App.js:453-472 | within the page range, an enabled Previous or Next button moves to a page that is still in range |
| App.NextEnabledBeyondLastPage | src/App.js:459-472 | of the two `disabled` tests alone: on a page beyond the last one, neither button is disabled |
| App.NoButtonsWhileLoadingOrEmpty | src/App.js:754-772 | while the list loads or when it lists no books (as on a page beyond the last), neither button can be clicked; with books listed and more than one page, Previous can be clicked exactly off page 1 and Next exactly off the last page |
| App.EditForm | src/App.js:156-167 | the form is filled from the book's fields, and the book's genres become their ids |
| App.EditFormOfStoredBook | src/App.js:156-167 | opening the form on a book the server formatted shows the stored fields and ticks exactly the book's genres, in order |
| App.BookPathId | src/App.js:205-206 | a book's path is the collection path, then "/", then decimal digits that read back as the id |
| App.SubmitRequest | src/App.js:197-207 | no request when the JS-trimmed title or author is empty; otherwise a PUT to the book's path when editing, or a POST to the collection, carrying the form |
| App.SubmitVerbRecordsEditing | src/App.js:204 | a sent request is a PUT exactly when a book was being edited when it was built |
| App.SubmitRefusesBlank | src/App.js:197-200 | the client refuses exactly the titles or authors made only of JavaScript white space |
| App.ZeroTitleSentThenRefused | src/App.js:197 | the client sends the title "0" and the server's title validator refuses it |
| App.NulTitleSentThenRefused | src/App.js:197 | the client sends a title made of a single NUL, and the server's trim strips it and refuses the title |
| App.NoBreakSpaceTitleRefusedByClientOnly | src/App.js:197 | the client refuses a title of one no-break space, which the server's validator would accept |
| App.BlankYearSentThenRefused | src/App.js:197-212 | a form with a title and an author but no year is sent carrying the year `""`, and the server's year check refuses it |
| App.BlankYearSentThenAccepted | src/App.js:197-212 | the same request passes the intended optional year check |
| App.Bookshelf.constructor | src/App.js:35-66 | the initial values of the state hooks: no books, loading, page 1 of 1, empty filters sorted by date DESC, no dialogs, an empty form, 10 per page |
| App.Bookshelf.ResetForm | src/App.js:143-154 | the form is emptied and editing stops; nothing else changes |
| App.Bookshelf.OpenModal | src/App.js:156-174 | with a book, the form is filled from it and it is being edited; without one, the form is reset; either way the messages are cleared and the modal is shown, and nothing else changes |
| App.Bookshelf.CloseModal | src/App.js:176-181 | the modal is hidden and the form is reset |
| App.Bookshelf.OpenDeleteModal | src/App.js:184-187 | the book is marked for deletion and the dialog is shown |
| App.Bookshelf.CloseDeleteModal | src/App.js:189-192 | the dialog is hidden and the mark is cleared |
| App.Bookshelf.HandleSubmit | src/App.js:194-213 | returns the submit decision for the current form; a refusal only sets the required-fields error; otherwise only loading starts |
| App.Bookshelf.SubmitSucceeded | src/App.js:204-216 | the updated message when the sent request was a PUT (a book was being edited when it was sent), otherwise the created message; the modal closed and the form reset, loading over |
| App.Bookshelf.SubmitFailed | src/App.js:221-224 | the save error message and loading over; the form stays as it was |
| App.Bookshelf.HandleDelete | src/App.js:227-235 | with no book marked nothing happens; otherwise a DELETE to the book's path, and loading starts |
| App.Bookshelf.DeleteSucceeded | src/App.js:237-238 | the deleted message, the dialog closed, loading over |
| App.Bookshelf.DeleteFailed | src/App.js:243-246 | the delete error message and loading over |
| App.Bookshelf.ClearFilters | src/App.js:250-256 | search, genre, author and year are emptied and the page goes back to 1; the sort order and everything else stay |
| App.Bookshelf.HandleSearch | src/App.js:258-261 | the search term is set and the page goes back to 1 |
| App.Bookshelf.SelectGenre | src/App.js:286 | only the genre filter changes; the page stays |
| App.Bookshelf.SelectAuthor | src/App.js:300 | only the author filter changes; the page stays |
| App.Bookshelf.SelectYear | src/App.js:314 | only the year filter changes; the page stays |
| App.Bookshelf.SelectOrderBy | src/App.js:328 | only the sort field changes |
| App.Bookshelf.SelectOrder | src/App.js:341 | only the sort direction changes |
| App.Bookshelf.ToggleFormGenre | src/App.js:654-658 | only the form's genre list changes, by the toggle |
| App.Bookshelf.ClickPrevious | src/App.js:453-461 | when the list is not loading, holds books and has more than one page, and Previous is enabled, the page goes down by exactly one; otherwise nothing changes |
| App.Bookshelf.ClickNext | src/App.js:453-472 | when the list is not loading, holds books and has more than one page, and Next is enabled, the page goes up by exactly one; otherwise nothing changes |
| App.Bookshelf.LoadBooks | src/App.js:87-100 | loading starts and the request carries the list parameters built from the page size, the current page and the filters |
| App.Bookshelf.BooksLoaded | src/App.js:107-113 | the books and the two totals are stored (0 books and 1 page when a header is missing), and loading ends |
| App.Bookshelf.LoadFailed | src/App.js:114-117 | the load error message, and loading ends |

## Left out

- Query execution is not modelled. This covers search matching, LIKE and numeric comparison, sorting, SQL paging, and the found-posts counts behind the `X-WP-Total` and `X-WP-TotalPages` headers. The list route is modelled up to the query it builds. The statistics route takes the posts of its two queries, and the published total and the genre total, as inputs.
- Host sanitisers and escapers (`sanitize_text_field`, `wp_kses_post`, `sanitize_hex_color`, `sanitize_textarea_field`, `esc_html`, `esc_attr`) are opaque function parameters, because their code is not part of this model. The create and update handlers receive their parameters already sanitised, as the host does before calling a handler.
- Nonce verification, capability checks (including the routes' permission callbacks), the autosave constant, the current user, the current time and the current year are inputs, because they are host state.
- The `sanitize_callback`s that the meta registration attaches to all four keys are not modelled: `sanitize_text_field` on author and isbn, and `absint` on published_year and pages (includes/cpt-book.php:45-83). The host runs them on every meta write; the model stores what the plugin's own code writes.
- In the model, `get_the_terms` returns a post's genres in assignment order, each once. The host's own ordering of terms is not modelled.
- Errors from `get_the_terms` are kept in the response shape but never produced by the modelled store.
- Whether `wp_insert_post`, `wp_update_post` and `wp_delete_post` fail is a boolean input. The model does not say when the host fails. The handlers call the first two without `$wp_error`, so a failure is the return value 0 (see "## Findings").
- BookEndpoints.CreateBookAsWritten: the reply to a failed insert is the formatted null post. The model does not give its field values, which `bookshelf_format_book` reads from `get_post(0)`, that is, from whatever global post is current.
- BookEndpoints.DeleteBook: the reply's id is the route segment as text ("007" for `/books/007`). The model replies with the id as a number.
- BookStats.TopTenMeaning: no tie order among authors with equal counts is stated. PHP 8's `arsort` is stable, so tied authors keep the order in which they were first counted, and the model's insertion sort is stable too; the contract leaves this out, so it does not say which of several tied authors make the top ten. The model sorts a sequence instead of sorting in place.
- BookStats.GetStats: PHP turns numeric-string array keys such as years into integer keys. The model keeps them as text, which changes no count.
- Php.IntCast reads an optional sign and a run of decimal digits. It does not model exponents, hexadecimal, or the clamping of values beyond 64 bits.
- Php.IsNumericText accepts only whole numbers with optional white space and sign. A year sent as "1999.0" or "2e3" is compared as a string in the model, where PHP compares it as a number.
- Helpers.ValidateYear: the year arrives as an integer or as text. JSON booleans, floats and arrays are not modelled.
- Helpers.ValidYearStaysValid and Helpers.ValidatedYearSurvivesSanitize are stated for numbers and numeric text only. Other text is compared as a string: "1a", for instance, passes in the years 2000 to 9999 only.
- Meta values are stored as text. A number written to meta is stored as its decimal text, and the model does not track the host's serialisation of other types.
- includes/cli/seed.php is not part of this model: its data comes from random choices and it only runs as a command-line tool.
- includes/rest/register-genre-endpoints.php is not part of this model: it is a thin copy of term fields, which the book response already covers.
- Bootstrapping is not part of this model: bookshelf.php, includes/rest-api.php and src/index.js only register hooks, routes, assets, menus and the shortcode, and mount the app.
- Rendering is not part of this model. That includes the meta box and term-field HTML (`bookshelf_book_details_callback`, `bookshelf_add_genre_fields`), apart from the colour fallback of the edit form, and all of the app's JSX.
- `bookshelf_validate_numeric` (includes/rest/helpers.php:55-57) only guards the `id` route segment, which the route pattern already restricts to digits. Ids are natural numbers in the model.
- `bookshelf_get_api_namespace` is a constant. The client's paths spell it out.
- Translation (`__`) is the identity in the model; the messages are the untranslated strings.
- The app's network calls are not modelled. A handler that sends a request returns the request it would send, and the request's outcome is a separate method. The model therefore does not capture overlapping list loads racing each other, or the `useEffect` that reloads the list whenever the page, a filter or the order changes; a reload is the separate `LoadBooks` step.
- App.Bookshelf.CloseModal: the source resets the form 100 ms after hiding the modal. The model resets it at once, so it does not capture a state in which the modal is hidden but the form is still filled.
- App.Bookshelf.SubmitSucceeded: the source also starts a list reload (and a stats reload in the admin context) before its final `setLoading(false)`. The model leaves the reload to a separate `LoadBooks`, so it does not capture the interleaving of those two loading updates.
- App.Bookshelf.BooksLoaded: the headers arrive already parsed as optional integers. A header that `parseInt` turns into NaN is not modelled.
- App.UniqueYearsMeaning: the descending comparison treats a year that is not all digits as 0. JavaScript's `-` reads some such years differently: as NaN, or as a number for padded, decimal or exponent text. The order of such years is therefore not the source's. The plugin's own writes store only `absint` digit text.
- The loading of genres and of statistics in the app, and the `stats`/`showStats` state, are left out. They only fetch data and toggle a panel.
- The form's text-field handlers only copy a value into the form. The number fields' `parseInt` is not modelled: the form holds the year and page count as text.
- `URLSearchParams` percent-encoding is not modelled: the parameters are name/value pairs before encoding.
- `SaveGenreFields` takes the hook's term-taxonomy id but does not use it, as the source does not.

## Findings

| source | as written | input that shows it | evidently intended | confidence | as-written member | corrected member |
|---|---|---|---|---|---|---|
| includes/rest/register-book-endpoints.php:251-255 | `wp_insert_post` is called without `$wp_error`, so a failure returns 0, which `is_wp_error` does not catch | an insert that fails: the reply is status 200 with the formatted null post | a failed insert answers creation-failed with status 500 | high; not executed | BookEndpoints.CreateBookAsWritten | BookEndpoints.CreateBook |
| includes/rest/register-book-endpoints.php:297-301 | `wp_update_post` is called without `$wp_error`, so a failure returns 0 and the handler goes on | a failed update carrying a new author: the author is written and the reply is status 200 | a failed update writes nothing and answers update-failed with status 500 | high; not executed | BookEndpoints.UpdateBookAsWritten, BookEndpoints.FailedUpdateStillWrites | BookEndpoints.UpdateBook |
| includes/rest/helpers.php:51-53 | the year check compares the raw value, so the blank year the form sends is compared as the string "" and refused | a save from the form with an empty year field (`published_year: ""`, src/App.js:212) | the year is optional: blank passes, and only a present year is range-checked | high; not executed | Helpers.ValidateYear, App.BlankYearSentThenRefused | Helpers.ValidateOptionalYear, App.BlankYearSentThenAccepted |
| includes/rest/helpers.php:51-53 | text that only starts with digits is compared as a string and passes | `published_year: "1a"` passes in any year from 2000 to 9999 and is stored as 1 | only a whole year from 1000 to the current year passes | medium; not executed | Helpers.JunkYearPassesAsOne | Helpers.ValidateOptionalYear |
| includes/taxonomy-genre.php:106-121 | the save function is hooked on `created_genre` and `edited_genre`, whose third argument is an array, so `$taxonomy !== 'genre'` always holds | saving any genre with a colour: nothing is written | the posted colour and extended description are saved for genre terms | high; not executed | TaxonomyGenre.OnGenreTermSaved | TaxonomyGenre.OnTermSaved |
| includes/rest/register-book-endpoints.php:33-66 | every list argument has a `sanitize_callback` and no `validate_callback`, so the declared minimum, maximum and enum are never checked | `per_page=500` reaches the query as 500; `order=foo` as "foo" | out-of-range values are refused | medium; not executed | BookEndpoints.SchemaNotEnforced | BookEndpoints.SchemaBoundsQuery |
