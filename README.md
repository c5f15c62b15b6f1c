# AR menu: a verified model of the catalogue logic

The AR menu is a restaurant-menu application. It has four parts:

- a React admin panel, where staff edit categories, products, announcements, GLB models and the category row layout;
- a public menu and branch page;
- an Express backend that keeps the whole database in memory as one JSON object;
- a photogrammetry pipeline that turns product photos into a 3D model. A Swift tool does the photogrammetry. When the tool is missing, the backend writes a placeholder GLB cube instead.

This project models the deterministic logic under the interface and the I/O:

- `layout.dfy`: the category row-layout editor of the admin panel. It covers:
  - the greedy default packing (`createDefaultLayouts`), as a method with loop invariants;
  - row and cell editing, as pure functions and as methods of the `LayoutEditor` class;
  - used and unused categories, and the click on an unused category;
  - grid sizes and labels.
  Widths are integer thousandths: full 1000, half 500, third 333. The thresholds are 1010 (overflow) and 990 (complete).
- `admin.dfy`, `app.dfy`, `menu.dfy`, `public.dfy`: the catalogue selection rules of the frontends. These are the product, category and GLB filters; the HEIC rename; the product and user form guards; the branch choice; the menu's list of all products (a nested loop); announcement rotation; favourites; search; category pages; grid templates; layout-row rendering; the WhatsApp and Instagram links; and the review and login guards.
- `store.dfy`: the backend's `db` as a class with one field per collection, and its REST handlers as methods:
  - create appends, with `order` equal to the old length;
  - update is a right-biased merge of the stored record and the body;
  - delete filters by id.
- `menu_api.dfy`: the read-only projections `GET /api/products` and `GET /api/menu`.
- `generation.dfy`: the generation route's checks and `findPhotoTo3D`. It also models the progress parsing and the mapping into 15..85, and the `generationProgress` table as a class. A whole run is modelled as a trace of progress entries, and the event stream ends exactly at its first terminal entry.
- `glb.dfy`: the binary glTF container of `createPlaceholderModel` (sections 4.4 and 4.5 of the Khronos glTF 2.0 specification):
  - the little-endian `writeUInt32LE` into byte arrays;
  - padding to four bytes;
  - a reader that recovers both chunks from the container;
  - the cube's buffer layout.
- `js.dfy`, `lists.dfy`, `text.dfy`: JavaScript values and object spread, order-preserving filters, and the string functions the rules use (`toLowerCase`, `includes`, `trim`, `split`/`join`, `replace`).

Frontend records are typed datatypes (`Catalog.Product`, `Catalog.Category`). Backend records are maps from field name to a JavaScript value, so `{ ...a, ...b }` is a right-biased map union (`Js.Spread`).

The environment is passed in as parameters:
- ids (`uuidv4`) and timestamps (`new Date()`);
- the files that exist on disk, and the photo directories' listings;
- what the external tools do during a run (the `Generation.Run` datatype).

## Model

| member | source | states |
|---|---|---|
| Js.Spread | backend/server.js:160 | `{ ...a, ...b }`: the keys of both, the body's value where the body has the key, the stored value elsewhere |
| Catalog.GlbCountsAddUp | frontend/src/App.jsx:1485-1486 | the assigned and unassigned counters add up to the number of GLB files |
| Text.Lower | frontend/src/Menu.jsx:325-327 | `toLowerCase` keeps the length and lowers each code unit |
| Text.LowerIdempotent | frontend/src/Menu.jsx:325-327 | lower-casing twice is lower-casing once |
| Text.ContainsIff | frontend/src/Menu.jsx:325-327 | `includes` holds exactly when the query occurs at some position |
| Text.Trim | frontend/src/Menu.jsx:323 | `trim()` gives a slice with no white space at either end; everything cut off is white space |
| Text.TrimTrimmed | frontend/src/App.jsx:1108 | trimming a string without white space at its ends changes nothing |
| Text.TrimDropsLeadingSpace | frontend/src/App.jsx:1108 | white space in front of a string does not survive trimming |
| Text.Split | frontend/src/App.jsx:1108 | `split(',')` yields at least one part, and no part holds the separator |
| Text.SplitJoin | frontend/src/App.jsx:1108 | joining the parts of a split with the separator gives the input back |
| Text.JoinSplit | frontend/src/App.jsx:1108 | splitting a join of separator-free parts gives the parts back |
| Text.JoinCommaSpace | frontend/src/App.jsx:1064-1065 | `join(', ')` is the comma join of the items with a space put before each item but the first |
| Text.ParseList | frontend/src/App.jsx:1108-1109 | the allergen and tag parser: an empty field gives `[]`; otherwise the items are the trimmed comma pieces, in order, with every non-empty piece kept as often as it occurs and empty ones dropped; each item is non-empty, trimmed and comma-free |
| Text.ParseJoinRoundTrip | frontend/src/App.jsx:1064-1065 | parsing the text the form shows for a saved list (`join(', ')`) gives the list back |
| Text.SplitCommaSpace | frontend/src/App.jsx:1108 | splitting `items.join(', ')` at commas gives the items, each but the first led by a space |
| Text.TrimSpaceLed | frontend/src/App.jsx:1108 | trimming those space-led pieces gives back the trimmed items |
| Text.KeepDigits | frontend/src/PublicPages.jsx:742 | `replace(/\D/g, '')` keeps only digits, and each digit as often as the input has it |
| Text.KeepDigitsSubseq | frontend/src/PublicPages.jsx:742 | the digits kept are in their original order |
| Text.KeepDigitsOfDigits | frontend/src/PublicPages.jsx:742 | a number written only in digits is unchanged |
| Text.KeepDigitsIdempotent | frontend/src/PublicPages.jsx:742 | stripping twice is stripping once |
| Text.DecimalRoundTrip | backend/server.js:482 | `parseInt` of a number's decimal text is the number |
| Text.RemoveFirst | frontend/src/Menu.jsx:1346 | `replace('@', '')` removes only the first occurrence; the multiset of code units loses exactly one `@` |
| Layout.EffectiveSize | frontend/src/AdminPages.jsx:1357 | `layoutSize \|\| 'half'`: a given size is kept, a missing one is never empty |
| Layout.Width | frontend/src/AdminPages.jsx:1358 | a cell is 1000, 500 or 333 thousandths wide |
| Layout.RowWidthAppend | frontend/src/AdminPages.jsx:1409 | `getRowWidth` of a row with one more cell adds that cell's width |
| Layout.RowsClosedMeans | frontend/src/AdminPages.jsx:1351-1378 | packed rows are numbered by index and each is non-empty and at most 1010 wide; a row closed short (below 990) was closed because the next category would overflow it |
| Layout.ResetIfOverflow | frontend/src/AdminPages.jsx:1360-1364 | when the next category would push the open row past 1010, a non-empty open row is closed and a new one, numbered next, opened; afterwards the category fits |
| Layout.AppendCell | frontend/src/AdminPages.jsx:1366-1373 | the category joins the open row, which is closed once it reaches 990; the packing invariant is kept with the category placed |
| Layout.PackRows | frontend/src/AdminPages.jsx:1356-1374 | the loop places every category in order; after a non-empty input some row or the open row holds a cell |
| Layout.CreateDefaultLayouts | frontend/src/AdminPages.jsx:1351-1378 | the rows' cells, in order, are exactly the categories with their effective sizes; no rows iff no categories; rows numbered by index, non-empty, width at most 1010, greedily closed |
| Layout.DefaultRowsNotOver | frontend/src/AdminPages.jsx:1506 | no row of the default packing shows the over-full chip |
| Layout.Renumber | frontend/src/AdminPages.jsx:1381 | `map((l, i) => ({ ...l, rowOrder: i }))` numbers rows by index and keeps their cells |
| Layout.EmptyRowAdded | frontend/src/AdminPages.jsx:1380 | `addRow` keeps the rows and appends an empty one numbered with the old length |
| Layout.EmptyRowAddedKeeps | frontend/src/AdminPages.jsx:1380 | adding a row changes neither the cells shown nor a valid numbering |
| Layout.RowDropped | frontend/src/AdminPages.jsx:1381 | `removeRow` drops exactly the row at the index, keeps the others in order and renumbers; an index out of range drops nothing |
| Layout.RowDroppedCells | frontend/src/AdminPages.jsx:1381 | removing a row removes exactly its cells from the layout |
| Layout.RowSwapped | frontend/src/AdminPages.jsx:1383-1389 | `moveRow`: a target outside the rows leaves the layout unchanged; otherwise exactly the two rows swap and rows are renumbered |
| Layout.RowSwappedPermutes | frontend/src/AdminPages.jsx:1383-1389 | moving a row is a permutation of the rows' cells: the multiset of rows is unchanged |
| Layout.RowSwappedBack | frontend/src/AdminPages.jsx:1383-1389 | moving a row and moving it back restores a numbered layout |
| Layout.AddCell | frontend/src/AdminPages.jsx:1391-1395 | `addCategoryToRow` appends the cell to the addressed row; every other row is untouched |
| Layout.SpliceOne | frontend/src/AdminPages.jsx:1399 | `splice(j, 1)`: removes the element at `j`, counting negative `j` from the end, and nothing when `j` is past the end |
| Layout.RemoveCell | frontend/src/AdminPages.jsx:1397-1401 | `removeCategoryFromRow` splices one cell from the addressed row; every other row is untouched |
| Layout.RemoveAddedCell | frontend/src/AdminPages.jsx:1391-1401 | removing the cell just added, by its index or by -1, restores the layout |
| Layout.ChangeSize | frontend/src/AdminPages.jsx:1403-1407 | `changeCategorySize` sets one cell's size; its category, the other cells and the other rows are untouched |
| Layout.ChangeSizeBack | frontend/src/AdminPages.jsx:1403-1407 | setting the old size back restores the layout |
| Layout.CellIds | frontend/src/AdminPages.jsx:1430 | `usedCategoryIds`: an id is listed exactly when some cell refers to it |
| Layout.UnusedIff | frontend/src/AdminPages.jsx:1430-1431 | a category is unused exactly when it is listed and no cell of any row refers to its id |
| Layout.ClickUnused | frontend/src/AdminPages.jsx:1463-1473 | with no rows the click makes one row holding the category; a last row below 990 gets it appended; otherwise a new numbered row holds it |
| Layout.ClickUnusedPlaces | frontend/src/AdminPages.jsx:1463-1473 | the click adds exactly the clicked category after all cells already placed and keeps a valid numbering |
| Layout.ClickedIsUsed | frontend/src/AdminPages.jsx:1430-1473 | after the click the category is no longer unused |
| Layout.PickForRow | frontend/src/AdminPages.jsx:1563-1566 | the row menu adds the first category with the chosen id; an unknown id changes nothing |
| Layout.GridSize | frontend/src/AdminPages.jsx:1433 | `getGridSize` is 12, 6 or 4 columns |
| Layout.LayoutLabel | frontend/src/AdminPages.jsx:1110-1117 | `getLayoutLabel`: "Tam" exactly for full, "1/3" exactly for third, "1/2" for anything else |
| Layout.UniformRowComplete | frontend/src/AdminPages.jsx:1409-1433 | the grid sizes divide 12, and a row of `12 / GridSize` cells of one size counts as complete and not over-full |
| Layout.RowFill | frontend/src/AdminPages.jsx:1506 | the row chip is "over" exactly above 1010 and "complete" exactly from 990 to 1010 |
| Layout.LayoutEditor.constructor | frontend/src/AdminPages.jsx:1317-1318 | the page starts with no categories and no rows |
| Layout.LayoutEditor.Load | frontend/src/AdminPages.jsx:1324-1343 | with no saved rows and some categories the rows are the default packing; otherwise the saved rows |
| Layout.LayoutEditor.AddRow | frontend/src/AdminPages.jsx:1380 | the rows become `EmptyRowAdded` of the old rows |
| Layout.LayoutEditor.RemoveRow | frontend/src/AdminPages.jsx:1381 | the rows become `RowDropped` of the old rows |
| Layout.LayoutEditor.MoveRow | frontend/src/AdminPages.jsx:1383-1389 | the rows become `RowSwapped` of the old rows |
| Layout.LayoutEditor.AddCategoryToRow | frontend/src/AdminPages.jsx:1391-1395 | the rows become `AddCell` of the old rows |
| Layout.LayoutEditor.RemoveCategoryFromRow | frontend/src/AdminPages.jsx:1397-1401 | the rows become `RemoveCell` of the old rows |
| Layout.LayoutEditor.ChangeCategorySize | frontend/src/AdminPages.jsx:1403-1407 | the rows become `ChangeSize` of the old rows |
| Layout.LayoutEditor.ClickUnusedCategory | frontend/src/AdminPages.jsx:1463-1473 | the rows become `ClickUnused` of the old rows |
| Layout.LayoutEditor.PickCategoryForRow | frontend/src/AdminPages.jsx:1563-1566 | the rows become `PickForRow` of the old rows |
| Admin.FilterProducts | frontend/src/AdminPages.jsx:694-705 | an order-preserving sub-list; every kept product meets every criterion and every product meeting them is kept; section `'null'` means no section |
| Admin.NoCriteriaKeepsAll | frontend/src/AdminPages.jsx:694-705 | with no search, category, section or known status every product is listed |
| Admin.StatusNarrows | frontend/src/AdminPages.jsx:699-703 | a status only narrows the list the other criteria give |
| Admin.ActiveInactiveSplit | frontend/src/AdminPages.jsx:699-700 | the `active` and `inactive` lists together are as long as the list without a status |
| Admin.FilterCategories | frontend/src/AdminPages.jsx:1119-1123 | an order-preserving sub-list of exactly the categories of the chosen section (`'null'`: none) |
| Admin.SectionsDisjoint | frontend/src/AdminPages.jsx:1119-1123 | `'null'` and a named section never list the same category |
| Admin.AvailableGlbFiles | frontend/src/AdminPages.jsx:932 | an order-preserving sub-list of the unassigned files and the product's own file, and all of them |
| Admin.NewProductSeesUnassigned | frontend/src/AdminPages.jsx:932 | a product without a file is offered exactly the unassigned files |
| App.JpgName | frontend/src/App.jsx:91 | a trailing `.heic` in any case becomes `.jpg` and the rest of the name is kept; other names are unchanged |
| App.HeicTestsAgree | frontend/src/App.jsx:87-91 | the lower-cased `.heic` test of `isHeicFile` and the case-insensitive pattern of the rename agree |
| App.ConvertedIsNotHeic | frontend/src/App.jsx:87-91 | a converted file is not taken for a HEIC file again |
| App.FilterProducts | frontend/src/App.jsx:902-906 | a product is kept exactly when its name contains the search ignoring case and its category matches |
| App.SameAsAdminFilter | frontend/src/App.jsx:902-906 | it is the admin panel's product filter with no section and no status |
| App.ProductsPageFilter | frontend/src/App.jsx:902-906 | it keeps the list's order, and lists everything when search and category are empty |
| App.OrNull | frontend/src/App.jsx:1101 | `x \|\| null`: null exactly for the empty text |
| App.FormOf | frontend/src/App.jsx:1050-1074 | the blank form for a new product; an opened product is active unless stored as `false` |
| App.SubmitPayload | frontend/src/App.jsx:1089-1110 | nothing is sent without a name or a price; otherwise name, price, description, category (`null` when empty), the three switches, campaign price, calories and preparation time (`null` when empty) and the parsed lists |
| App.EditRoundTrip | frontend/src/App.jsx:1050-1109 | opening a stored product with clean lists and saving it unchanged sends back its name, price, description, switches, lists, its category and optional numbers (`null` when empty) and `isActive !== false` |
| App.FormKeepsScalars | frontend/src/App.jsx:1050-1104 | the scalar fields of a stored product survive the form and the save |
| App.ChooseBranch | frontend/src/App.jsx:155-165 | a branch is chosen only when some are loaded and none is current: the saved one if listed, else the first |
| App.SubmitUser | frontend/src/App.jsx:2472-2485 | sent exactly with a username, an email and, for a new user, a password; an empty password is left out of the body |
| App.NewUserHasPassword | frontend/src/App.jsx:2477-2485 | a new user is never sent without a password |
| App.MenuPageProducts | frontend/src/App.jsx:2586-2588 | without a selection all products; otherwise the order-preserving sub-list of exactly the selected category's products |
| Menu.TableLanguage | frontend/src/Menu.jsx:203 | a known language uses its own table; any other uses Turkish |
| Menu.CampaignsTitle | frontend/src/Menu.jsx:8-203 | the campaigns title is never empty and is the Turkish one for an unknown language |
| Menu.CollectProducts | frontend/src/Menu.jsx:245-258 | the nested loop collects exactly `AllProducts`: each category's active products, tagged, in order |
| Menu.TaggedActiveIff | frontend/src/Menu.jsx:247-255 | a product is in one category's part of the list exactly when it is an active product of it, tagged |
| Menu.AllProductsIff | frontend/src/Menu.jsx:245-258 | a product is in the list exactly when it is some category's active product tagged with that category |
| Menu.AllProductsSound | frontend/src/Menu.jsx:245-258 | everything in the list is some category's active product, tagged |
| Menu.AllProductsComplete | frontend/src/Menu.jsx:245-258 | every category's active product, tagged, is in the list |
| Menu.AllProductsActive | frontend/src/Menu.jsx:248 | no product in the list is switched off |
| Menu.NextAnnouncement | frontend/src/Menu.jsx:277-279 | the next index stays below the count, advances by one and wraps to 0 |
| Menu.AnnouncementAfterIsMod | frontend/src/Menu.jsx:273-283 | after `n` steps the carousel shows announcement `n mod length` |
| Menu.ToggleFavorite | frontend/src/Menu.jsx:286-294 | a present id is removed everywhere and the other favourites keep their order and their repetitions; an absent one is appended |
| Menu.ToggleTwiceRestores | frontend/src/Menu.jsx:286-294 | toggling a non-favourite twice restores the list |
| Menu.SearchResults | frontend/src/Menu.jsx:323-329 | a blank query gives nothing; otherwise exactly the products whose name, description or category name contains the query ignoring case, in order |
| Menu.SearchFindsActive | frontend/src/Menu.jsx:323-329 | every search result is an active product |
| Menu.PageFor | frontend/src/Menu.jsx:1958-1968 | `'campaigns'` shows the campaign list; a known category its active products and icon and name; an unknown id nothing and an empty title |
| Menu.GridTemplate | frontend/src/Menu.jsx:1123-1130 | the template is as many `1fr` columns as the column count |
| Menu.ColumnsMatchEditor | frontend/src/Menu.jsx:1123-1130 | for the three known sizes, columns times the editor's grid size is 12 |
| Menu.ResolveRow | frontend/src/Menu.jsx:1145-1148 | the shown categories are, in order, one per known id of the row, each the first category with that id; unknown ids are skipped |
| Menu.AllIdsResolve | frontend/src/Menu.jsx:1145-1148 | with every id known, every id of the row shows, in order |
| Menu.CardHeight | frontend/src/Menu.jsx:1155 | 160px exactly for one-column rows, 140px otherwise |
| Menu.InstagramLink | frontend/src/Menu.jsx:1346 | the profile URL: the handle with its first `@` cut out, or the handle itself when it has none |
| Menu.InstagramHandle | frontend/src/Menu.jsx:1346 | `@name` and `name` link to the same profile |
| Public.CampaignProducts | frontend/src/PublicPages.jsx:315-318 | exactly the campaign products with a truthy campaign price, in order |
| Public.CampaignProductsStable | frontend/src/PublicPages.jsx:315-318 | selecting again changes nothing |
| Public.ProductCount | frontend/src/PublicPages.jsx:321-324 | 0 for a falsy id, and never more than the products |
| Public.CategoryProducts | frontend/src/PublicPages.jsx:327-330 | nothing without a selection; otherwise the order-preserving sub-list of exactly the products whose category id reads as the selection |
| Public.CountIsListLength | frontend/src/PublicPages.jsx:321-330 | the count on a tile is the length of the list its click opens |
| Public.SelectedInfo | frontend/src/PublicPages.jsx:333-336 | null without a selection; otherwise a listed category with that id, found whenever one exists |
| Public.HeightAndFlexAgree | frontend/src/PublicPages.jsx:574-581 | height and flex follow the same three-way split, full lowest, then half |
| Public.RenderItem | frontend/src/PublicPages.jsx:562-581 | an item with neither id nor name is skipped; otherwise the tile carries its id (`id`, else `_id`) and name, the size defaults to half, height and flex follow the size, and the count is that category's product count |
| Public.RenderItems | frontend/src/PublicPages.jsx:562-568 | the tiles are, in order, those of the items that render, one each |
| Public.AllItemsRender | frontend/src/PublicPages.jsx:562-568 | a row whose items all render gives every item's tile, in place |
| Public.RenderRow | frontend/src/PublicPages.jsx:548-549 | a row without items is not rendered; otherwise its items are |
| Public.RenderRows | frontend/src/PublicPages.jsx:547-549 | the strips are, in order, the tiles of the rows that have items |
| Public.WhatsAppLink | frontend/src/PublicPages.jsx:742 | the `wa.me` URL followed by exactly the number's digits, each as often as it occurs |
| Public.WhatsAppKeepsNumber | frontend/src/PublicPages.jsx:742 | the digits keep their order and their count, and a number written in digits is kept whole |
| Public.SubmitReview | frontend/src/PublicPages.jsx:300-311 | nothing is posted without a name or a rating; a post carries the form; after success the form is reset to blank with rating 5 |
| Public.NoDoubleReview | frontend/src/PublicPages.jsx:300-306 | after a successful review the same click posts nothing |
| Public.SubmitLogin | frontend/src/PublicPages.jsx:51-63 | refused exactly without username or password, or without email in setup mode; setup sends the form; otherwise log in with the credentials |
| Public.Severity | frontend/src/PublicPages.jsx:446 | `promo` shows as `error`, every other type as itself |
| Store.LoadData | backend/server.js:73-96 | a readable file is used as it is; otherwise the default settings and empty collections |
| Store.UpdateById | backend/server.js:158-164 | not found exactly when no record has the id; otherwise the first such record becomes its spread-merge with the body and the others are kept |
| Store.UpdateIdempotent | backend/server.js:158-164 | sending the same update twice equals sending it once |
| Store.DeleteById | backend/server.js:166-170 | every record with the id goes; the others stay, in order |
| Store.DeleteIdempotent | backend/server.js:166-170 | repeating a delete changes nothing |
| Store.DeleteUnknown | backend/server.js:166-170 | deleting an unknown id changes nothing |
| Store.NewCategory | backend/server.js:145-152 | exactly id, name, icon (default 📁), null image, `order` = count and time |
| Store.NewProduct | backend/server.js:202-214 | name and price from the body, no thumbnail or model, active unless `false`, flags as given, null category when none, empty description when none |
| Store.NewProductFields | backend/server.js:202-214 | the product has exactly the handler's fields; a given category id and description are copied from the body |
| Store.NewAnnouncement | backend/server.js:799-807 | always active, `order` = count, icon defaulting to 📢 |
| Store.NewReview | backend/server.js:833-839 | the rating from the body; empty contact and note become null |
| Store.CreateKeepsOrder | backend/server.js:144-156 | creating a category keeps every record's `order` equal to its position |
| Store.UploadReply | backend/server.js:118-123 | 400 exactly without a file, otherwise the file name |
| Store.SetFieldIsUpdate | backend/server.js:176 | setting one field in place is an update with that one field |
| Store.Store.constructor | backend/server.js:73-96 | the server starts with `loadData()` |
| Store.Store.PutSettings | backend/server.js:112-116 | settings are merged with the body; nothing else changes |
| Store.Store.SetSettingsImage | backend/server.js:118-137 | without a file 400 and no change; otherwise the field holds the file name |
| Store.Store.CreateCategory | backend/server.js:144-156 | exactly one new category appended; nothing else changes |
| Store.Store.UpdateCategory | backend/server.js:158-164 | unknown id: 404 and no change; otherwise the updated list and the merged record |
| Store.Store.DeleteCategory | backend/server.js:166-170 | categories filtered by id; products untouched |
| Store.Store.SetCategoryImage | backend/server.js:172-180 | 400 without a file, 404 for an unknown id, otherwise the category's `image` set |
| Store.Store.CreateProduct | backend/server.js:201-218 | exactly one new product appended; nothing else changes |
| Store.Store.UpdateProduct | backend/server.js:220-226 | unknown id: 404 and no change; otherwise the updated list and the merged record |
| Store.Store.DeleteProduct | backend/server.js:228-245 | products filtered by id; categories untouched |
| Store.Store.SetThumbnail | backend/server.js:247-254 | 400 without a file, 404 for an unknown id, otherwise the product's `thumbnail` set |
| Store.Store.CreateAnnouncement | backend/server.js:798-811 | exactly one new announcement appended; nothing else changes |
| Store.Store.UpdateAnnouncement | backend/server.js:813-819 | unknown id: 404 and no change; otherwise the updated list and the merged record |
| Store.Store.DeleteAnnouncement | backend/server.js:821-825 | announcements filtered by id; nothing else changes |
| Store.Store.CreateReview | backend/server.js:832-843 | exactly one new review appended; nothing else changes |
| Store.Store.DeleteReview | backend/server.js:845-849 | reviews filtered by id; nothing else changes |
| Store.Store.Layouts | backend/server.js:852-854 | the saved rows, or `[]` when none are saved |
| Store.Store.PutLayouts | backend/server.js:856-860 | the saved rows are replaced wholesale and read back |
| Store.Store.CampaignSettings | backend/server.js:863-865 | the stored settings, or the default title, enabled, when none are stored |
| Store.Store.PutCampaignSettings | backend/server.js:867-871 | the body is merged into the stored settings |
| MenuApi.GlbField | backend/server.js:190-195 | `${id}.glb` exactly when that file exists, else null |
| MenuApi.ListedProduct | backend/server.js:183-196 | the product with its photo count and model file added, other fields kept |
| MenuApi.ProductListing | backend/server.js:182-198 | every product, in order, as listed |
| MenuApi.Decorated | backend/server.js:883-888 | the product with model file, category name and icon set, other fields kept |
| MenuApi.CategoryProducts | backend/server.js:877-889 | the active products with the category's id, in stored order, decorated |
| MenuApi.CategoryProductsIff | backend/server.js:877-889 | a product is on a category's list exactly when it is active and has that category id |
| MenuApi.CategoryProductsBelong | backend/server.js:877-889 | every product on a category's list is active and carries that category's id, name and icon |
| MenuApi.MenuCategories | backend/server.js:876-891 | every stored category, in order, with its products |
| MenuApi.LookupField | backend/server.js:897-904 | `cat?.name \|\| ''` is empty when no category has the product's category id |
| MenuApi.LookupFieldFirst | backend/server.js:897-904 | with a category of the product's category id, the field is read from the first one, `''` when it is falsy |
| MenuApi.Highlighted | backend/server.js:894-921 | one decorated entry per active campaign (or featured) product, in order |
| MenuApi.ActiveAnnouncements | backend/server.js:924 | an order-preserving sub-list of exactly the active announcements |
| MenuApi.MenuOf | backend/server.js:874-935 | the menu body: settings, categories, active announcements, campaign and featured products, and the stored layouts and campaign settings, with their defaults when none are stored |
| MenuApi.NewAnnouncementShown | backend/server.js:798-811 | a new announcement is on the menu at once |
| MenuApi.NewProductShown | backend/server.js:201-218 | a new product of a category, not created inactive, is on that category's list |
| MenuApi.DeletedCategoryHidden | backend/server.js:166-170 | after a category is deleted no menu category lists a product with its id |
| Generation.PhotoNameIgnoresCase | backend/server.js:325 | the photo-name test ignores case |
| Generation.Photos | backend/server.js:325 | exactly the jpg/jpeg/png/heic/heif names of the listing, in order |
| Generation.CheckRequest | backend/server.js:316-328 | unknown product, missing photo directory and fewer than 20 photos are refused, in that order; otherwise accepted |
| Generation.CheckReply | backend/server.js:316-337 | 404 or 400 with the route's messages, or `started` with the product id |
| Generation.CliCandidates | backend/server.js:292-299 | the six places the tool is looked for |
| Generation.FindPhotoTo3D | backend/server.js:304-313 | nothing exactly when no candidate exists; otherwise the first that does |
| Generation.TerminalStages | backend/server.js:772 | only `completed` and `error` end a stream |
| Generation.FirstPercent | backend/server.js:480 | the leftmost `Ilerleme:\s*%(\d+)` match, or none exactly when there is none |
| Generation.ParsesToolLine | swift-cli/Sources/main.swift:77 | the tool's progress line reads back as its percentage |
| Generation.MappedProgress | backend/server.js:485 | a percentage from 0 to 100 maps into 15..85, 0 to 15 and 100 to 85 |
| Generation.MappedProgressMonotone | backend/server.js:485 | a higher percentage never shows less progress |
| Generation.PercentProgress | backend/server.js:481-487 | a percentage is written as a non-terminal `generating` entry |
| Generation.ChunkWrites | backend/server.js:480-497 | a chunk writes at most two non-terminal entries: the percentage, then `finalizing` at 85 on a completion marker; nothing without either |
| Generation.LastWriteIsLast | backend/server.js:480-497 | the entry a chunk leaves is the last of its writes |
| Generation.OutputWrites | backend/server.js:480-497 | the tool's output never writes a terminal entry |
| Generation.Steps | backend/server.js:353-430 | every entry a run writes before its last is non-terminal |
| Generation.Outcome | backend/server.js:389-459 | a run ends completed (placeholder or converted model) or failed with the error's message |
| Generation.Trace | backend/server.js:343-460 | a run's entries end with exactly one terminal entry, its last |
| Generation.CompletedSetsModel | backend/server.js:389-442 | a run completes exactly when it leaves a model file on the product |
| Generation.ProgressTable.constructor | backend/server.js:289 | the table starts empty |
| Generation.ProgressTable.Current | backend/server.js:769 | a product without an entry reads as the non-terminal `unknown` |
| Generation.ProgressTable.Queue | backend/server.js:331-335 | the generate route queues the product at 0 |
| Generation.ProgressTable.Write | backend/server.js:483-487 | one assignment of the product's entry |
| Generation.ProgressTable.HandleOutput | backend/server.js:480-497 | the product's entry becomes the chunk's last write; other products are untouched |
| Generation.ProgressTable.WriteChunk | backend/server.js:481-497 | the percentage's entry, then the `finalizing` entry on a completion marker: the product's entry ends as the latest of them; other products are untouched |
| Generation.ProgressTable.Play | backend/server.js:343-460 | playing a run leaves its last entry |
| Generation.RunEndsStream | backend/server.js:772-777 | after a run its product's stream ends |
| Generation.SendProgress | backend/server.js:768-778 | one event: the product's entry or `unknown`; the stream ends exactly on a terminal one |
| Generation.Stream | backend/server.js:768-784 | the events are a prefix of the samples; only the last may be terminal; it stops only at a terminal one |
| Generation.StreamStopsAtFirstTerminal | backend/server.js:768-784 | the stream is exactly the samples up to and including the first terminal one |
| Generation.UnknownNeverEnds | backend/server.js:769-772 | a stream for a product without an entry never ends by itself |
| Glb.ReadWriteLE | backend/server.js:742-752 | reading back little-endian bytes gives the value written |
| Glb.WriteReadLE | backend/server.js:742-752 | writing the value read gives the bytes back |
| Glb.MagicSpellsGlTF | backend/server.js:742 | the magic number is the bytes `glTF` |
| Glb.JsonTypeSpellsJson | backend/server.js:748 | the JSON chunk type is the bytes `JSON` |
| Glb.BinTypeSpellsBin | backend/server.js:752 | the BIN chunk type is the bytes `BIN` and a zero byte |
| Glb.Pad4 | backend/server.js:735 | `(4 - n % 4) % 4` is below 4 and aligns `n` |
| Glb.PadMinimal | backend/server.js:735 | no shorter padding aligns the data |
| Glb.Padded | backend/server.js:735-739 | the data, then fill bytes up to the next multiple of four |
| Glb.PaddedAligned | backend/server.js:738-739 | aligned data is not padded |
| Glb.Header | backend/server.js:741-744 | the file header is 12 bytes |
| Glb.Container | backend/server.js:735-754 | the container is 28 bytes plus both padded chunks long, and aligned |
| Glb.DecodeChunkOf | backend/server.js:746-752 | a chunk reads back as its data |
| Glb.ReadHeader | backend/server.js:741-744 | the header reads back as magic, version 2 and the total length |
| Glb.DecodeContainer | backend/server.js:735-754 | the container reads back as its padded JSON chunk and padded BIN chunk |
| Glb.WriteUInt32LE | backend/server.js:742-752 | `writeUInt32LE` puts the value's four little-endian bytes at the offset and changes nothing else |
| Glb.FileHeader | backend/server.js:741-744 | the header buffer written field by field is `Header(total)` |
| Glb.ChunkHeader | backend/server.js:746-752 | a chunk header buffer holds the length and the type |
| Glb.Concat | backend/server.js:754 | `Buffer.concat` yields the parts one after another |
| Glb.BuildGlb | backend/server.js:735-754 | the buffers assembled as the source does are exactly `Container(json, bin)` |
| Glb.Floats | backend/server.js:703-719 | a `Float32Array`'s bytes: four little-endian bytes per value |
| Glb.Shorts | backend/server.js:721-725 | a `Uint16Array`'s bytes: two little-endian bytes per value |
| Glb.CubeBinary | backend/server.js:703-731 | the cube's binary chunk is 648 bytes |
| Glb.ViewsTileBuffer | backend/server.js:695-700 | the three buffer views lie end to end from 0 and cover the 648-byte buffer |
| Glb.ViewsMatchAccessors | backend/server.js:690-699 | each view is exactly as long as the data its accessor reads |
| Glb.IndicesInRange | backend/server.js:721-725 | every index names one of the 24 vertices |
| Glb.CubeBinaryAligned | backend/server.js:727-739 | the cube's binary chunk needs no padding |

## Left out

- React rendering, styling, hooks, timers (`setInterval`, `setTimeout`), scrolling, `localStorage` and routing: interface and browser state. The announcement timer is modelled as a count of steps, and the saved branch id and the favourites as parameters.
- HTTP: axios calls, auth interceptors, Express routing and response writing. Handlers are methods on the store, and the event stream is a sequence of sampled entries.
- Filesystem work (`fs.existsSync`, `readdirSync`, `writeFileSync`, multer uploads, `saveData`): existing files and directory listings are parameters. The deletion of a product's photo directory and GLB file on delete is not modelled.
- The photo upload, listing and delete routes (`backend/server.js:256-287`), the manual conversion route and `/api/health`: file handling only.
- `uuidv4` and `new Date()`: passed in as parameters.
- Spawning the photogrammetry tool, `swift build` and Blender, and their timeouts: process plumbing. Their outcomes are fields of `Generation.Run`. The `HATA:` branch of the output handler only logs, so it is not modelled.
- `swift-cli/Sources/main.swift` and `swift-cli/Package.swift` are not part of this model, beyond the progress line the tool prints. `convert_usdz_to_glb.py` is not part of this model: it writes a fixed script and runs Blender.
- The JSON text of the placeholder's glTF description is a parameter of the container (`json`). Only its buffer views and accessors are modelled as data.
- The cube's vertex and normal values are modelled as bit patterns of the halves they use. Single-precision arithmetic is not modelled.
- Float formatting (`formatBytes`, `toFixed`), discount and dashboard percentages: floating point presentation.
- Foreign libraries (`heic2any`, model-viewer, recharts) and the helpers `formatPrice`, `getImageUrl`, `getGlbUrl`: opaque.
- Layout.LayoutEditor.Load: saved rows are taken as they are. The normalisation `c.category || c` and `c.size || 'half'` of saved cells is not modelled; the saved rows are assumed already normalised.
- Layout.Width: widths are integer thousandths (1000, 500, 333) and thresholds 1010 and 990. At the sums the rows can reach, double-precision sums do not cross these thresholds differently.
- Generation.MappedProgress: `Math.floor(percent * 0.7)` is modelled exactly only up to 100 (including the double-precision result 62 at 90). Above 100 the model uses the exact `7p/10`, which differs from double precision at 170, 180, 330 and other values.
- Text.Lower: lower-cases ASCII, Latin-1 and the Turkish Ğ and Ş. Other Unicode mappings (including the two-code-unit result of `İ`) are not modelled.
- Glb.Container: requires the total length to fit in 32 bits, because `writeUInt32LE` throws above 0xFFFFFFFF. That error path is not modelled.
- Public.SubmitReview, Public.SubmitLogin: the request itself is an input (`accepted`, or the action returned). Network failures are not modelled beyond that.
- Store.Store.Layouts: saved layout rows are opaque records. The backend never looks inside them.
- App.SubmitPayload: the price and campaign price are sent as the form's text rather than `parseFloat` of it, and calories and preparation time as text rather than `parseInt` of it (`frontend/src/App.jsx:1099`, `1105-1107`). So the model does not capture a partly numeric entry being cut to its numeric prefix ("12,50" is sent as 12), nor a non-numeric one becoming `NaN`, which JSON sends as `null`. Parsing numbers from free text is left out.
