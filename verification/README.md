# Portfolio CMS — a verified model of its rules

The portfolio site has a public side (projects, skills, journey, about,
contact) and an admin dashboard. The dashboard edits the same content
through authenticated API routes backed by a Supabase store. Almost every
route follows the same shape: check who is calling, normalise the request
into a table row (or a stored row into a response), run one query, and
answer with JSON. This project models the rules inside those steps in
Dafny and proves what they promise:

- the Bearer-then-cookie authentication gate and the headers the
  dashboard sends it;
- the cookie string the browser client reads and writes;
- the camelCase ⇄ snake_case normalisers of every content route, with
  the `||`, `??` and `!== undefined` fallbacks each field uses;
- the JSON text stored for a project's technologies;
- the reordering of skills, skill categories and project filters;
- the text rules of the public pages (journey lines, about paragraphs,
  embed URLs, the live-URL label);
- the small state of the contact form, the image field and the project
  modal.

JavaScript values are a datatype `Js.JsVal` (undefined, null, booleans,
integers, strings, arrays of strings) with JavaScript truthiness. Objects
are maps from keys to values, where an absent key reads as `undefined`.
A table of the store is a map from row id to row. An update or upsert
merges the fields of the request that are not `undefined` into the row,
as `JSON.stringify` and PostgREST do. What the store or the identity
provider answers is a parameter of each operation. Handlers that change
state step by step are methods, and a component's fields are a class.

## Model

| member | source | states |
|---|---|---|
| ApiAuth.BearerToken | lib/api-auth.ts:12-13 | A token is recognised exactly when the header starts with the case-sensitive prefix "Bearer ", and the token is what follows those seven characters |
| ApiAuth.CheckApiAuth | lib/api-auth.ts:5-52 | A token user with no error wins, with the token-scoped client. Otherwise the cookie session decides, with the cookie client. A failure carries the cookie message, else the token message, else "No session found". A user is returned exactly when there is no error, and an error is never empty |
| ApiAuth.FirstMessage | lib/api-auth.ts:47 | The cookie message if non-empty, else the token message if non-empty, else "No session found"; never empty |
| ApiAuth.UnauthorizedResponse | lib/api-auth.ts:54-59 | Status 401 with error "Unauthorized". The details are the given text, or "Authentication required" when absent or empty |
| ApiAuth.Guard | app/api/admin/skills/route.ts:8-10 | The admin handlers go on exactly when there is a user and the error is falsy; otherwise they answer 401 |
| ApiHelpers.GetAuthHeaders | lib/api-helpers.ts:3-19 | Content-Type is "application/json" exactly when asked for (the default). Authorization is present exactly when the session's access token is truthy, and is then "Bearer " + token. There are no other headers |
| ApiHelpers.HeaderTokenRoundTrip | lib/api-helpers.ts:15 | The gate's parse of the header built here gives back the session's token |
| ApiHelpers.AuthFetch | lib/api-helpers.ts:22-38 | Credentials are always 'include'. Caller headers win on a clash. Content-Type is added unless the method is exactly "GET", so a call with no method gets it. Authorization follows the session |
| SupabaseClient.CreateClient | lib/supabase/client.ts:4-10 | The client is created exactly when both the URL and the anon key are present and non-empty; otherwise it fails with the missing-variables error |
| SupabaseClient.ParseAll | lib/supabase/client.ts:16-19 | One cookie per "; "-separated piece, in order; the read fails exactly when some piece's value does not URI-decode |
| SupabaseClient.CookieNameValue | lib/supabase/client.ts:17-18 | The name is the text before the first "=", and the value is the rest rejoined with "=", so an "=" inside a value survives |
| SupabaseClient.GetAllEmpty | lib/supabase/client.ts:16-19 | An empty cookie string reads as one cookie with an empty name and value |
| SupabaseClient.Pairs | lib/supabase/client.ts:24 | Each cookie is written as its name, "=" and its URI-encoded value |
| SupabaseClient.ParseWritten | lib/supabase/client.ts:18-24 | Reading back a written pair gives the cookie, for a name without "=" or "; " |
| SupabaseClient.GetAllHeader | lib/supabase/client.ts:16-24 | Reading the "; "-joined written pairs gives back exactly the cookies written, in order |
| SupabaseClient.ParseAllSome | lib/supabase/client.ts:16-19 | When every piece parses to its cookie, the whole read gives those cookies in order |
| SupabaseClient.NonEmpty | lib/supabase/client.ts:30 | `filter(Boolean)` keeps every non-empty part and only those |
| SupabaseClient.CookieStringFirst | lib/supabase/client.ts:23-30 | The cookie string is `name=value` first, then the non-empty attributes, joined by "; " |
| SupabaseClient.CookieDefaults | lib/supabase/client.ts:25-28 | `path=/` and `samesite=lax` appear when no path or sameSite is given, and the given ones otherwise |
| SupabaseClient.CookieMaxAge | lib/supabase/client.ts:26 | A max-age attribute appears exactly when maxAge is truthy, so 0 is dropped |
| SupabaseClient.CookieDomain | lib/supabase/client.ts:27 | A domain attribute appears exactly when the domain option is truthy |
| SupabaseClient.DomainShown | lib/supabase/client.ts:27-30 | A truthy domain option gives a `domain=` attribute that survives the filter |
| SupabaseClient.DomainOnlyFromOption | lib/supabase/client.ts:27-30 | A `domain=` attribute in the cookie string only ever comes from a truthy domain option |
| SupabaseClient.CookieSecure | lib/supabase/client.ts:29 | `secure` appears exactly when the secure option is set |
| SupabaseClient.Assigned | lib/supabase/client.ts:21-33 | One assigned string per cookie, in order, the i-th being the i-th cookie's string |
| SupabaseClient.Document.SetAll | lib/supabase/client.ts:21-33 | One `document.cookie` write per cookie, in order, each the cookie's string; earlier writes are kept |
| Uri.EncodeDecode | lib/supabase/client.ts:18-24 | URI-decoding what URI-encoding produced gives back the value, for every string of Unicode scalar values |
| Uri.DecodesTwoByteSequence | lib/supabase/client.ts:18 | Escapes of a well-formed UTF-8 sequence decode to its character: `%C3%A9` is "é" |
| Uri.MalformedSequencesThrow | lib/supabase/client.ts:18 | A lead byte without its continuation byte, and an overlong form, make the decode throw |
| Json.EncodeDecode | app/api/admin/projects/route.ts:23-25 | Parsing the JSON text of a list of strings gives back the same list |
| Json.Hex4Read | app/api/admin/projects/route.ts:25 | Four hex digits written for a value below 0x10000 read back as that value |
| Json.PairEscapeRead | app/api/admin/projects/route.ts:25 | A character outside the Basic Multilingual Plane, written as the two `\u` escapes of its UTF-16 surrogate pair, parses as that one character |
| Json.PairHalves | app/api/admin/projects/route.ts:25 | The high and the low surrogate of every character above U+FFFF combine back to that character |
| Json.PairRead | app/api/admin/projects/route.ts:25 | A high-surrogate escape followed by a low-surrogate escape parses as the character the pair combines to, consuming both escapes |
| Js.Serialize | components/admin/ContactInfoManager.tsx:81-84 | A body sent as JSON keeps exactly its keys whose value is not `undefined`, with their values |
| Js.Apply | app/api/admin/skills/route.ts:101-104 | After an update, every defined field of the patch holds the patch's value and every other field of the row keeps its own |
| Js.ApplyIdempotent | app/api/admin/skills/route.ts:101-104 | Applying the same update twice leaves the row as applying it once |
| Js.SerializeGet | components/admin/ContactInfoManager.tsx:81-84 | Reading any key of the sent body gives what the object held, since an absent key and an `undefined` one read alike |
| Js.ApplyGet | app/api/admin/skills/route.ts:101-104 | Key by key: a defined patch value is read after the update, and an undefined one leaves the row's value |
| Http.Data | app/api/admin/profile/route.ts:18-20 | A single-row query yields a row exactly when one was found; "no row" (PGRST116) is no data, not an error |
| Http.ObjectOrNull | app/api/admin/profile/route.ts:22-27 | A missing row is answered as JSON `null`, a present one as the object |
| Http.UpdateRow | app/api/admin/skills/route.ts:101-104 | `update().eq('id', id)` changes only the row with that id, by merging the patch, and fails when there is none |
| Http.UpsertRow | app/api/admin/profile/route.ts:66-68 | An upsert on id merges into the existing row or creates it from the defined fields; other rows are unchanged |
| Http.UpsertGet | app/api/admin/journey/route.ts:68-72 | After an upsert, every defined field of the upserted row is what the table holds for it, whether the row existed or not |
| Http.UpsertIdempotent | app/api/admin/profile/route.ts:66-68 | Upserting the same row twice gives the table one upsert gives |
| Http.DeleteRow | app/api/admin/projects/route.ts:160-163 | Deleting by id removes that row only |
| Http.RequireId | app/api/admin/projects/route.ts:150-158 | A missing or empty `?id=` gives 400 "ID is required"; otherwise the id |
| ProjectsRoute.ReadTechnologies | app/api/admin/projects/route.ts:23-25 | An array is kept; a falsy value reads as the empty list; a string is JSON-parsed, and a text that does not parse fails |
| ProjectsRoute.ReadProject | app/api/admin/projects/route.ts:21-33 | A row reads exactly when its technologies read. The result keeps every other column and adds the four URL aliases, snake_case first |
| ProjectsRoute.ReadDefaults | app/api/projects/route.ts:27-29 | `role` is kept when truthy, else ''. `publishedDate` and `mapUrl` take the snake_case column, then the camelCase key, then '' |
| ProjectsRoute.ReadAll | app/api/projects/route.ts:18-30 | Every row is normalised in the store's order, and the listing fails exactly when one row's technologies fail to parse |
| ProjectsRoute.GetPublicProjects | app/api/projects/route.ts:8-39 | A store error or a parse failure gives 500 "Failed to fetch projects", never partial data; otherwise 200 with every row normalised |
| ProjectsRoute.ReadAllKeepsOrder | app/api/projects/route.ts:11 | A listing newest first by `created_at` stays newest first after normalising |
| ProjectsRoute.CreatedAtKept | app/api/admin/projects/route.ts:22 | Normalising keeps `created_at` |
| ProjectsRoute.GetAdminProjects | app/api/admin/projects/route.ts:4-43 | Without a user, the 401 answer; otherwise the same answer as the public listing |
| ProjectsRoute.WriteProject | app/api/admin/projects/route.ts:54-68 | The written row has exactly the eleven project columns |
| ProjectsRoute.WriteContent | app/api/admin/projects/route.ts:55-59 | Title and description are copied. An array of technologies is stored as its JSON text, and anything else unchanged |
| ProjectsRoute.WriteLinks | app/api/admin/projects/route.ts:60-63 | Each URL column takes the camelCase key when truthy, else the snake_case one |
| ProjectsRoute.WriteDefaults | app/api/admin/projects/route.ts:64-67 | `role`, `published_date` and `map_url` become null when every spelling is falsy, and `featured` becomes false |
| ProjectsRoute.TechnologiesRoundTrip | app/api/admin/projects/route.ts:23-25 | A list of technologies written by POST or PUT reads back as the same ordered list |
| ProjectsRoute.WriteReadFields | app/api/admin/projects/route.ts:26-29 | A truthy URL written under its camelCase key reads back under the same key |
| ProjectsRoute.PostProject | app/api/admin/projects/route.ts:45-92 | Without a user, the 401 answer and no change. A store failure gives 500 with its details. Otherwise the new row is the written fields under a fresh id and is answered |
| ProjectsRoute.PutProject | app/api/admin/projects/route.ts:94-140 | The body's id selects the row. Only that row is merged with the written fields and answered; a missing row gives 500 "Failed to update project" |
| ProjectsRoute.PutKeepsId | app/api/admin/projects/route.ts:121-124 | The PUT never rewrites the id of the row it updates |
| ProjectsRoute.DeleteProject | app/api/admin/projects/route.ts:142-177 | 401 without a user. 400 "ID is required" without an id, before the store. A store error answers 500 "Failed to delete project". Otherwise exactly that row is removed and the answer is `{success: true}` |
| ProjectsManager.LoadProject | components/admin/ProjectsManager.tsx:48-57 | The dashboard's read keeps an array, parses a string, maps falsy to [], and takes the URL aliases snake_case first; other fields are kept |
| ProjectsManager.LoadAfterRead | components/admin/ProjectsManager.tsx:48-57 | Re-normalising what the admin route already normalised changes nothing |
| ProjectsManager.ColumnsKept | components/admin/ProjectsManager.tsx:48-57 | The four snake_case URL columns pass through the read unchanged |
| ProjectsManager.LoadAll | components/admin/ProjectsManager.tsx:48-57 | Every project is read in order; the load fails exactly when one fails |
| ProjectsManager.SplitTechnologies | components/admin/ProjectsManager.tsx:79 | The pieces of the comma-separated field are non-empty, trimmed and contain no comma |
| ProjectsManager.TechnologiesFieldRoundTrip | components/admin/ProjectsManager.tsx:79 | Splitting the ", "-joined list gives it back when each item is non-empty, trimmed and comma-free |
| ProjectsManager.EditForm | components/admin/ProjectsManager.tsx:137-149 | Editing fills the technologies field with the list joined by ", ", and every optional text field with its value or '' |
| ProjectsManager.FormBody | components/admin/ProjectsManager.tsx:79-89 | The body is the form with the split technologies. It carries the edited project's id when editing, and no id when creating |
| ProjectsManager.SubmitBody | components/admin/ProjectsManager.tsx:79-89 | Every technology sent is non-empty, trimmed and comma-free |
| ProjectsManager.EditSaveKeepsTechnologies | components/admin/ProjectsManager.tsx:142 | Opening a project and saving it unedited sends back the same technologies with the project's id |
| ProjectsManager.EditSaveClearsDateAndMap | components/admin/ProjectsManager.tsx:26-36 | The form has no date or map field, so every save through it writes null to `published_date` and `map_url` |
| ProjectsManager.NoDateFields | components/admin/ProjectsManager.tsx:80-89 | The body never holds a date, map or snake_case URL key |
| ProjectsManager.EmptiedUrlIsKept | app/api/admin/projects/route.ts:111 | A URL emptied in the form is sent as '', then written as the old column, so it cannot be cleared |
| ProjectsView.FilterProjects | components/Projects.tsx:59-61 | 'all' gives the list unchanged. Any other filter keeps exactly the projects with a technology containing the filter text, ignoring case. The result is an order-preserving subsequence |
| ProjectsView.Keep | components/Projects.tsx:59-61 | The filter step keeps exactly the matching projects, in order |
| ProjectsView.KeepCounts | components/Projects.tsx:59-61 | Every copy of a matching project is kept and no copy of another one |
| ProjectsView.SelectFilter | components/Projects.tsx:100 | A button named "all" in any case selects 'all'; any other selects its exact name |
| ProjectsView.ClickHighlights | components/Projects.tsx:100-104 | The clicked button is highlighted, and so is exactly every button that selects the same filter |
| ProjectsView.CardBadges | components/Projects.tsx:198-210 | At most the first three technologies are shown, plus an overflow count of the rest when there are more than three |
| ProjectsView.EmptyMessage | components/Projects.tsx:233-235 | "No projects found." appears exactly when the filtered list is empty |
| ProjectModal.Images | components/ProjectModal.tsx:33 | The image list has one element, the image URL, exactly when it is truthy, and is otherwise empty |
| ProjectModal.JsRem | components/ProjectModal.tsx:57-63 | JavaScript's `%` truncates, so it agrees with the mathematical remainder only for a non-negative left side |
| ProjectModal.MovesStayInRange | components/ProjectModal.tsx:55-65 | Next and previous keep an index in [0, n) |
| ProjectModal.PrevUndoesNext | components/ProjectModal.tsx:57-63 | Previous after next, and next after previous, return to the original index |
| ProjectModal.NextWraps | components/ProjectModal.tsx:57-63 | Next from the last image gives the first, and previous from the first gives the last |
| ProjectModal.Modal.Open | components/ProjectModal.tsx:33-38 | Opening shows the project's images from index 0 |
| ProjectModal.Modal.constructor | components/ProjectModal.tsx:29-30 | The modal starts at image 0, not copied, with no images |
| ProjectModal.Modal.Next | components/ProjectModal.tsx:55-59 | The index advances cyclically; with no images nothing changes |
| ProjectModal.Modal.Prev | components/ProjectModal.tsx:61-65 | The index steps back cyclically; with no images nothing changes |
| ProjectModal.Modal.Select | components/ProjectModal.tsx:207 | A thumbnail click shows that image |
| ProjectModal.Modal.CopyLink | components/ProjectModal.tsx:47-53 | A truthy live URL is copied and the copied flag is set; otherwise nothing happens |
| ProjectModal.Modal.CopiedExpires | components/ProjectModal.tsx:51 | The timer clears the copied flag only |
| ProjectModal.OneImageStays | components/ProjectModal.tsx:55-65 | With at most one image, next and previous leave the index where it is |
| ProjectModal.EmbedPlayer | components/ProjectModal.tsx:224-243 | A URL naming youtube.com or youtu.be gets a YouTube frame. Otherwise one naming vimeo.com gets a Vimeo frame. Any other URL plays raw |
| ProjectModal.YouTubeWatchEmbed | components/ProjectModal.tsx:226 | A watch URL becomes its embed URL |
| ProjectModal.YouTubeShortEmbed | components/ProjectModal.tsx:226 | A youtu.be URL becomes a youtube.com/embed URL |
| ProjectModal.VimeoEmbed | components/ProjectModal.tsx:233 | A vimeo.com URL becomes its player.vimeo.com/video URL |
| ProjectModal.DemoVideoExcludesImages | components/ProjectModal.tsx:222 | The demo video is shown only when there is no image |
| ProjectModal.LiveUrlLabel | components/ProjectModal.tsx:284 | The label is the URL minus at most one leading http:// or https:// and at most one trailing "/" |
| ProjectModal.LiveUrlLabelOfSite | components/ProjectModal.tsx:284 | For a URL with a scheme, the label is the rest without its trailing "/" |
| ProjectModal.LiveUrlLabelNoScheme | components/ProjectModal.tsx:284 | For a URL without a scheme, the label is the URL, less one trailing "/" when it has one |
| ProjectModal.RoleLabel | components/ProjectModal.tsx:134 | The role is shown when truthy, else "Full-Stack Developer" |
| SkillsRoute.ReadSkill | app/api/admin/skills/route.ts:23-26 | Every column is kept, and `imageUrl` is added as `image_url`, else `imageUrl` |
| SkillsRoute.ReadAll | app/api/skills/route.ts:19-22 | Every row is read in the store's order |
| SkillsRoute.GetAdminSkills | app/api/admin/skills/route.ts:4-36 | 401 without a user; 500 "Failed to fetch skills" on a store error; otherwise 200 with every row read |
| SkillsRoute.GetPublicSkills | app/api/skills/route.ts:4-29 | Always 200: the rows read, or [] on a store error |
| SkillsRoute.Loaded | components/admin/SkillsManager.tsx:35-40 | The dashboard's skills are the route's rows, one for one |
| SkillsRoute.AdminListingCategories | app/api/admin/skills/route.ts:15-17 | On a listing ordered by `category_order`, the dashboard's sorted categories are the categories in first-appearance order |
| SkillsRoute.OrderField | app/api/admin/skills/route.ts:52-53 | The camelCase order whenever it is defined (0 included), else the snake_case one when truthy, else 0 |
| SkillsRoute.WriteSkill | app/api/admin/skills/route.ts:47-54 | The POST row has exactly the six skill columns |
| SkillsRoute.WriteSkillFields | app/api/admin/skills/route.ts:47-54 | Name, category and proficiency are copied. `image_url` prefers `imageUrl`. The orders follow OrderField, so a `categoryOrder` of 0 is kept |
| SkillsRoute.PostSkill | app/api/admin/skills/route.ts:38-74 | 401 without a user, 500 "Failed to create skill" on a failure, otherwise the new row under a fresh id |
| SkillsRoute.UpdateDataOf | app/api/admin/skills/route.ts:85-99 | The update always carries name, category, proficiency and `image_url` (`imageUrl`, else `image_url`). Each order column is present exactly when one of its spellings is defined, and then the camelCase one wins. No other column is written; with both camelCase orders given it is the POST row |
| SkillsRoute.UpdateData | app/api/admin/skills/route.ts:85-99 | The step-by-step build of the update object yields exactly UpdateDataOf of the body without its id |
| SkillsRoute.UpdatedSkill | app/api/admin/skills/route.ts:86-104 | After the update, each of the six columns holds its new value when that is defined and keeps the stored one otherwise; every other column is unchanged |
| SkillsRoute.EmptiedImageKept | app/api/admin/skills/route.ts:90 | An emptied `imageUrl` with no `image_url` leaves the stored image in place, because `''` is falsy and the undefined result is dropped |
| SkillsRoute.UpdatedFromBody | app/api/admin/skills/route.ts:85-104 | Read from the body: a given name is written and an absent one kept; an order with neither spelling is kept; a camelCase order is written; the id is kept |
| SkillsRoute.PutSkill | app/api/admin/skills/route.ts:76-120 | 401 without a user. With a row under the body's id, that row becomes the merge of UpdateDataOf of the body without its id and is answered; other rows are unchanged. A missing row gives 500 "Failed to update skill" |
| SkillsRoute.DeleteSkill | app/api/admin/skills/route.ts:122-157 | 401 without a user. 400 "ID is required" without an id, before the store. A store error answers 500 "Failed to delete skill". Otherwise exactly that row is removed |
| Http.DeleteById | app/api/admin/skills/route.ts:129-150 | The shared delete step: a missing or empty id answers 400 and leaves the table; a store error answers 500 with the route's message; otherwise exactly the row with that id is gone and every other row is unchanged |
| SkillsRoute.EntryPatch | app/api/admin/skills/route.ts:179-185 | A PATCH entry sets `category_order` exactly when `categoryOrder` is defined, and `skill_order` exactly when `skillOrder` is, and nothing else |
| SkillsRoute.PatchRow | app/api/admin/skills/route.ts:187-190 | An entry changes only the row with its id |
| SkillsRoute.PatchAll | app/api/admin/skills/route.ts:178-193 | The batch changes no row set |
| SkillsRoute.PatchSkills | app/api/admin/skills/route.ts:159-203 | 401 without a user; 400 "Updates must be an array" for a non-array; otherwise every entry is applied and the answer is `{success: true}` |
| SkillsRoute.PatchAllKeeps | app/api/admin/skills/route.ts:178-191 | Columns other than the two orders never change, and a row no entry names is untouched |
| SkillsRoute.PatchAllSets | app/api/admin/skills/route.ts:178-191 | With distinct ids, each entry's defined orders are what its row holds afterwards |
| SkillsRoute.Wire | components/admin/SkillsManager.tsx:131-134 | An update on the wire carries its id and exactly the orders it sets |
| SkillsRoute.WireMatchesUpdate | app/api/admin/skills/route.ts:178-191 | The route applying a move's entry to a row, read back by the dashboard, equals the dashboard's own reading of that update |
| SkillList.OrderOf | components/Skills.tsx:102-103 | An order reads as its number, and a missing or falsy one as 0 |
| SkillList.FromRow | components/Skills.tsx:70-75 | A listed row as the public page holds it, orders through OrderOf |
| SkillList.InCategory | components/Skills.tsx:100 | Exactly the skills of that category, in list order |
| SkillList.CategorySkills | components/Skills.tsx:98-106 | Exactly that category's skills, ascending by `skill_order` (missing as 0), a permutation of the category's filter |
| SkillList.Categories | components/Skills.tsx:72-77 | Each category once, exactly those present, in first-appearance order |
| SkillList.FirstOrderIs | components/Skills.tsx:73-77 | A category's order is the `category_order` of its first skill |
| SkillList.FirstOrder | components/Skills.tsx:73-77 | A category absent from the list has order 0 |
| SkillList.SortedCategoriesMembers | components/Skills.tsx:78-80 | The displayed categories are exactly the categories present |
| SkillList.SortedCategoriesDistinct | components/Skills.tsx:78-80 | Each displayed category appears once |
| SkillList.SortedCategoriesAscend | components/Skills.tsx:78-80 | Displayed categories ascend by their first skill's order |
| SkillList.SortedListCategories | components/admin/SkillsManager.tsx:188-195 | On a list already ordered by `category_order`, sorting the categories keeps first-appearance order |
| SkillsView.ExtractCategories | components/Skills.tsx:72-81 | The loop over the skills builds exactly the sorted category list |
| SkillsView.ToggleCategory | components/Skills.tsx:90-96 | Clicking the selected category clears the selection, and any other category selects it |
| SkillsView.ToggleTwice | components/Skills.tsx:90-96 | Two clicks on a category select it exactly when it was selected before |
| SkillsView.IconIgnoresCase | components/Skills.tsx:27 | The icon depends on the lowercased name only |
| SkillsView.UiWinsOverLaterRules | components/Skills.tsx:29-34 | A name mentioning ui or ux gets the code or layout icon, whatever later rules it also matches |
| SkillsView.BuildToolsIcon | components/Skills.tsx:32-50 | "Build Tools" contains "ui", so the first-match order gives it the layout icon, not the tools icon |
| SkillsView.Initial | components/Skills.tsx:218 | The first character uppercased, or nothing for an empty name |
| SkillsView.SkillAvatar | components/Skills.tsx:207-218 | A truthy image URL shows the image; otherwise the name's initial |
| SkillsManager.LoadSkill | components/admin/SkillsManager.tsx:35-40 | `imageUrl` is `image_url`, else `imageUrl`; a falsy order reads as 0 |
| SkillsManager.IndexOfId | components/admin/SkillsManager.tsx:156 | The first position holding the id, or -1 exactly when none does |
| SkillsManager.ApplyTo | app/api/admin/skills/route.ts:178-191 | An entry changes only the skill with its id, and only the orders it carries |
| SkillsManager.UpdateSkills | app/api/admin/skills/route.ts:178-191 | One entry applied to every skill |
| SkillsManager.AfterUpdates | app/api/admin/skills/route.ts:178-193 | A batch changes only order fields, and skills it does not name are unchanged |
| SkillsManager.ApplyUpdates | app/api/admin/skills/route.ts:178-193 | Applying the batch in place, row by row, leaves the array holding AfterUpdates of the old skills |
| SkillsManager.AfterConcat | app/api/admin/skills/route.ts:178-193 | Applying two batches one after the other equals applying their concatenation |
| SkillsManager.IndexOfName | components/admin/SkillsManager.tsx:119 | The first position of the category, or -1 exactly when it is absent |
| SkillsManager.Neighbour | components/admin/SkillsManager.tsx:152-162 | The skill a move exchanges with is a skill of the same category; there is none when the skill is absent |
| SkillsManager.MoveSkill | components/admin/SkillsManager.tsx:151-170 | No update without a neighbour. Otherwise exactly two updates exchange the two skills' `skill_order` |
| SkillsManager.NeighbourAdjacent | components/admin/SkillsManager.tsx:152-162 | The neighbour is next to the skill in `skill_order`: no sibling lies strictly between them |
| SkillsManager.MoveSkillSwaps | components/admin/SkillsManager.tsx:163-170 | After the updates, the two skills hold each other's `skill_order` and every other skill is unchanged |
| SkillsManager.MoveSkillKeepsOrders | components/admin/SkillsManager.tsx:167-170 | A skill move keeps the multiset of `skill_order` values |
| SkillsManager.ExchangeKeepsOrders | components/admin/SkillsManager.tsx:167-170 | Exchanging the orders of two distinct skills keeps the multiset of `skill_order` values |
| SkillsManager.MoveSkillTie | components/admin/SkillsManager.tsx:163-170 | Moving a skill onto a neighbour with the same order changes nothing |
| SkillsManager.CategoryUpdates | components/admin/SkillsManager.tsx:132-133 | One update per skill of the category, setting its `category_order` only |
| SkillsManager.AfterCategoryUpdates | components/admin/SkillsManager.tsx:131-134 | After a category's updates, exactly the skills they name take the new `category_order`, and every other skill is unchanged |
| SkillsManager.TargetCategory | components/admin/SkillsManager.tsx:118-126 | The target is a different category present in the list, taken by first-appearance order; none when the category is absent |
| SkillsManager.MoveCategory | components/admin/SkillsManager.tsx:113-134 | No update without skills or a target. Otherwise the moved category's skills take the target's order and the target's skills the moved one's |
| SkillsManager.FirstInCategory | components/admin/SkillsManager.tsx:114-117 | A category has skills exactly when it is present, and its current order is its first skill's |
| SkillsManager.MoveCategorySwaps | components/admin/SkillsManager.tsx:131-134 | After the updates, every skill of the two categories has the other's order and all other skills are unchanged |
| SkillsManager.TargetIsDisplayedNeighbour | components/admin/SkillsManager.tsx:188-195 | On a listing ordered by `category_order`, the target is the displayed neighbour in the move's direction |
| SkillsManager.MoveCategoryExchanges | components/admin/SkillsManager.tsx:131-134 | The two categories exchange their orders and every other category keeps its own |
| SkillsManager.MaxOrder | components/admin/SkillsManager.tsx:211 | The largest `category_order`, or -1 for no skills |
| SkillsManager.NewSkillOrder | components/admin/SkillsManager.tsx:211-217 | A new skill's order is above every existing one and one more than some existing one, and it is 0 without skills |
| FiltersRoute.GetAdminFilters | app/api/admin/project-filters/route.ts:4-30 | 401 without a user; 500 "Failed to fetch project filters" on a store error; otherwise the rows |
| FiltersRoute.ErrorMessage | app/api/admin/project-filters/route.ts:61 | The error's message when non-empty, else the fallback |
| FiltersRoute.WriteFilter | app/api/admin/project-filters/route.ts:41-45 | The POST row has exactly name, `display_order` and `is_active` |
| FiltersRoute.WriteFilterFields | app/api/admin/project-filters/route.ts:42-44 | `display_order` is the first truthy spelling, else 0. `is_active` is `isActive` when defined, else true, and a snake_case `is_active` is ignored |
| FiltersRoute.PostFilter | app/api/admin/project-filters/route.ts:32-65 | 401 without a user. A failure gives 500 with its message or the fallback. Otherwise the new row |
| FiltersRoute.FilterUpdateAsWritten | app/api/admin/project-filters/route.ts:77-81 | `display_order` is `displayOrder` only when truthy, else `display_order`; `is_active` is `isActive` when defined, else `is_active` |
| FiltersRoute.ZeroOrderDropped | app/api/admin/project-filters/route.ts:79 | As written, a PUT with `displayOrder` 0 keeps the stored order; the corrected update writes 0 |
| FiltersRoute.FilterUpdate | app/api/admin/project-filters/route.ts:77-81 | Corrected: `display_order` is `displayOrder` whenever it is defined |
| FiltersRoute.UpdatesAgree | app/api/admin/project-filters/route.ts:79 | The two updates differ only for a defined, falsy `displayOrder` |
| FiltersRoute.PutWith | app/api/admin/project-filters/route.ts:67-102 | The PUT merges its data into the row with the body's id only, and answers it; a missing row gives 500 |
| FiltersRoute.UpdatedFilterAsWritten | app/api/admin/project-filters/route.ts:76-88 | As written, after the update: name and `is_active` (`isActive` when defined, else `is_active`) are written when defined and kept otherwise; `display_order` takes `displayOrder || display_order` when defined; other columns are unchanged |
| FiltersRoute.UpdatedFilter | app/api/admin/project-filters/route.ts:76-88 | Corrected, after the update: as above, but `display_order` takes `displayOrder` when defined, else `display_order`, else keeps the stored order |
| FiltersRoute.PutFilterAsWritten | app/api/admin/project-filters/route.ts:67-102 | As written: the PutWith outcome of the as-written update. 401 without a user; a hit changes only the named row, writes a given name and `is_active` (snake_case too) and answers the row; a falsy `displayOrder` without `display_order` keeps the old order; a missing row gives 500 with the store's message |
| FiltersRoute.PutFilter | app/api/admin/project-filters/route.ts:67-102 | Corrected: the PutWith outcome of the corrected update. 401 without a user; a hit changes only the named row, writes a defined `displayOrder` (0 included), else `display_order`, a given name and `is_active`, keeps absent ones and answers the row; a missing row gives 500 with the store's message |
| FiltersRoute.DeleteFilter | app/api/admin/project-filters/route.ts:104-139 | 401 without a user. 400 "ID is required" without an id. A store error answers 500 "Failed to delete project filter". Otherwise exactly that row is removed |
| FiltersManager.Row | components/admin/ProjectFiltersManager.tsx:104-111 | A filter as the store holds it |
| FiltersManager.MoveBody | components/admin/ProjectFiltersManager.tsx:121-136 | Each move PUT resends the filter's id, name and active flag with the new order |
| FiltersManager.Write | components/admin/ProjectFiltersManager.tsx:119-137 | The row after a move PUT, corrected route: the order sent is stored |
| FiltersManager.WriteMatchesRoute | app/api/admin/project-filters/route.ts:77-81 | Write is exactly what the corrected PUT does to the row |
| FiltersManager.WriteAsWritten | app/api/admin/project-filters/route.ts:79 | As written, an order of 0 is not stored and the row keeps its old order |
| FiltersManager.WriteAsWrittenMatchesRoute | app/api/admin/project-filters/route.ts:77-81 | WriteAsWritten is exactly what the PUT as written does to the row |
| FiltersManager.IndexOfId | components/admin/ProjectFiltersManager.tsx:105 | The first position holding the id, or -1 when none does |
| FiltersManager.Partner | components/admin/ProjectFiltersManager.tsx:105-111 | The neighbour in list order, or none when the filter is not listed or the neighbour's index leaves [0, n) |
| FiltersManager.FirstWrite | components/admin/ProjectFiltersManager.tsx:119-127 | The first PUT changes no list length |
| FiltersManager.FirstWriteTies | components/admin/ProjectFiltersManager.tsx:119-137 | Between the two PUTs both filters hold the same `display_order` |
| FiltersManager.Moved | components/admin/ProjectFiltersManager.tsx:104-144 | Corrected: no move changes nothing; otherwise both PUTs are applied, whatever their statuses |
| FiltersManager.MoveOrder | components/admin/ProjectFiltersManager.tsx:104-144 | Corrected: the two writes done in place leave the array holding Moved of the old list |
| FiltersManager.MoveSwaps | components/admin/ProjectFiltersManager.tsx:114-137 | Corrected: the two filters exchange their orders, every other filter is unchanged, and the multiset of orders is kept |
| FiltersManager.MovedAsWritten | components/admin/ProjectFiltersManager.tsx:104-144 | As written, the move equals the corrected one whenever neither order is 0 |
| FiltersManager.MoveOntoZeroAsWritten | app/api/admin/project-filters/route.ts:79 | As written, moving B(1) above A(0) leaves both at 1; the corrected move exchanges them |
| FiltersManager.NewFilterOrder | components/admin/ProjectFiltersManager.tsx:160 | A new filter's default order is the number of filters, which no order in [0, n) takes |
| FiltersManager.EditForm | components/admin/ProjectFiltersManager.tsx:94-101 | Editing fills the form with the filter's name, order and flag |
| JourneyRoute.ToCamelCase | app/api/admin/journey/route.ts:4-17 | null stays null; otherwise exactly the ten camelCase fields |
| JourneyRoute.ToCamelCaseDefined | app/api/admin/journey/route.ts:6-17 | No field is undefined, and only `imageUrl` can be null |
| JourneyRoute.ToCamelCaseDefaults | app/api/admin/journey/route.ts:7-16 | For all ten fields, defaults apply to null and undefined only: title 'My Journey', `imageUrl` from `image_url` then `imageUrl` then null, and each of the other eight fields its one snake_case column, else ''; a stored '' stays '' |
| JourneyRoute.ReadFirstFields | app/api/admin/journey/route.ts:7-11 | title, content, `imageUrl`, headline and `whoIAm` each take their `??` chain from the stored row |
| JourneyRoute.ReadLastFields | app/api/admin/journey/route.ts:12-16 | `whatIDo`, `shortTermGoals`, `longTermGoals`, experience and `howIWork` each take their snake_case column, else '' |
| JourneyRoute.GetAdminJourney | app/api/admin/journey/route.ts:20-44 | 401 without a user. No row gives null. Any other error gives 500 "Failed to fetch journey". A row gives its camelCase form |
| JourneyRoute.GetPublicJourney | app/api/journey/route.ts:20-37 | Always 200: a row's camelCase form, null with no row and null on any other error |
| JourneyRoute.JourneyData | app/api/admin/journey/route.ts:54-66 | The row stamps `updated_at` with the time given |
| JourneyRoute.JourneyDataPrefersCamel | app/api/admin/journey/route.ts:54-64 | Each of the ten columns takes the camelCase key, then the snake_case one, then its default (null for the image, '' for the text columns); title, content, headline and experience have a single spelling |
| JourneyRoute.WriteFirstColumns | app/api/admin/journey/route.ts:55-59 | title, content, `image_url`, headline and `who_i_am` each take their `??` chain from the body |
| JourneyRoute.WriteLastColumns | app/api/admin/journey/route.ts:60-64 | `what_i_do`, `short_term_goals`, `long_term_goals`, experience and `how_i_work` each take their `??` chain from the body |
| JourneyRoute.PutJourney | app/api/admin/journey/route.ts:46-86 | 401 without a user; 500 on a store error; otherwise the singleton row is upserted with the body's data under the fixed id, other rows unchanged, and the stored row answered in camelCase |
| JourneyRoute.PutStoresFields | app/api/admin/journey/route.ts:54-72 | After a PUT the stored singleton row holds every one of the ten columns' `??` values, the time stamp and the fixed id |
| JourneyRoute.UpsertStores | app/api/admin/journey/route.ts:66-72 | Upserting the body's data with the fixed id stores the ten columns, the time stamp and the id |
| JourneyRoute.WithId | app/api/admin/journey/route.ts:66-70 | Adding the fixed id to the data keeps its ten columns and its time stamp |
| JourneyRoute.UpsertFirstColumns | app/api/admin/journey/route.ts:68-72 | The upsert keeps the first five columns' values in the stored row |
| JourneyRoute.UpsertLastColumns | app/api/admin/journey/route.ts:68-72 | The upsert keeps the last five columns' values in the stored row |
| JourneyRoute.JourneyDataOfStrings | app/api/admin/journey/route.ts:54-64 | A body of strings is written column for column |
| JourneyRoute.UpsertHolds | app/api/admin/journey/route.ts:68-72 | The upserted row holds the body's values whether or not the row existed |
| JourneyRoute.ReadBackColumns | app/api/admin/journey/route.ts:6-17 | A row holding a string body's values reads back as those ten fields |
| JourneyRoute.PutReadsBack | app/api/admin/journey/route.ts:54-78 | A PUT of ten strings answers with the same ten fields |
| JourneyManager.Defaults | components/admin/JourneyManager.tsx:22-33 | Title 'My Journey' and '' for every other field |
| JourneyManager.LoadForm | components/admin/JourneyManager.tsx:53-64 | The loaded form has exactly the ten fields |
| JourneyManager.LoadPrefersCamel | components/admin/JourneyManager.tsx:54-63 | Each of the ten fields takes the camelCase key, then snake_case, then its default ('My Journey' for the title, '' otherwise) |
| JourneyManager.LoadFirstFields | components/admin/JourneyManager.tsx:54-58 | title, content, `imageUrl`, headline and `whoIAm` each take their `??` chain from the answer |
| JourneyManager.LoadLastFields | components/admin/JourneyManager.tsx:59-63 | `whatIDo`, `shortTermGoals`, `longTermGoals`, experience and `howIWork` each take their `??` chain from the answer |
| JourneyManager.Fetch | components/admin/JourneyManager.tsx:46-76 | Only an OK answer with data and no truthy `error` resets the form. An OK `null` keeps the form and sets no message; a truthy `error`, a failed status or a network error keeps it and sets the matching message |
| JourneyManager.SubmitBody | components/admin/JourneyManager.tsx:88-99 | An empty `imageUrl` is sent as null and every other field verbatim |
| JourneyManager.LoadStrings | components/admin/JourneyManager.tsx:53-64 | Loading a string answer gives exactly its ten fields |
| JourneyManager.ReadStrings | app/api/admin/journey/route.ts:6-17 | A row of string columns reads as string fields that hold those columns |
| JourneyManager.SubmitStrings | components/admin/JourneyManager.tsx:88-99 | A string form with a non-empty image is sent field for field |
| JourneyManager.SaveUnedited | components/admin/JourneyManager.tsx:88-99 | Loading a stored row and saving it unedited writes the same columns back |
| JourneyManager.EmptyImageSavedNull | components/admin/JourneyManager.tsx:91 | An emptied image is stored as null |
| JourneyPage.ParseLines | app/journey/page.tsx:22-26 | Every item is trimmed and non-empty, and there are at most as many items as lines |
| JourneyPage.ParseNothing | app/journey/page.tsx:22-23 | A missing text gives no items |
| JourneyPage.ParseLinesCons | app/journey/page.tsx:22-26 | Lines become items one at a time, in order: a non-blank first line gives its trimmed text first |
| JourneyPage.Field | app/journey/page.tsx:59-71 | A text field of the journey, present exactly when the journey has it as a string |
| JourneyPage.OneBody | app/journey/page.tsx:256-267 | With any section, neither the legacy text nor the placeholder shows; otherwise exactly one of them shows |
| JourneyPage.NoJourneyPlaceholder | app/journey/page.tsx:266-267 | Without a journey the placeholder shows under the title 'My Journey' |
| JourneyPage.HeadlineLines | app/journey/page.tsx:106-111 | A blank headline shows no lines |
| JourneyPage.HeadlineIsParsed | app/journey/page.tsx:106-111 | The headline shows its non-blank lines, trimmed, in order |
| JourneyPage.WhoIAmParagraphs | app/journey/page.tsx:120-130 | A non-blank "who I am" shows one paragraph per line, blank lines included |
| JourneyPage.LegacyParagraphs | app/journey/page.tsx:257-263 | Legacy paragraphs are non-blank and appear only when no section is filled |
| JourneyPage.Title | app/journey/page.tsx:103 | The journey's title when non-empty, else 'My Journey' |
| JourneyPage.Image | app/journey/page.tsx:59 | The journey's image when non-empty, else the profile image |
| JourneyPage.AfterFetch | app/journey/page.tsx:35-38 | Only an OK, non-null answer replaces the journey |
| ProfileRoute.WithImageUrl | app/api/admin/profile/route.ts:22-25 | Every column is kept, and `imageUrl` is `image_url`, else `imageUrl` |
| ProfileRoute.GetAdminProfile | app/api/admin/profile/route.ts:4-35 | 401 without a user. No row gives null. Any other error gives 500 "Failed to fetch profile". A row gives the row with its alias |
| ProfileRoute.ProfileKey | app/api/admin/profile/route.ts:54 | The body's id when truthy, else the fixed singleton id |
| ProfileRoute.BaseData | app/api/admin/profile/route.ts:49-55 | The base row has exactly name, title, description, `image_url` and id |
| ProfileRoute.Include | app/api/admin/profile/route.ts:58 | A contact field is added exactly when the body defines it |
| ProfileRoute.IncludeAllGet | app/api/admin/profile/route.ts:58-64 | Each listed field holds the body's value when defined, and every other field keeps the base value |
| ProfileRoute.IncludeAllKeys | app/api/admin/profile/route.ts:58-64 | The additions write no key outside the base row and the contact keys |
| ProfileRoute.BaseHasNoContact | app/api/admin/profile/route.ts:49-55 | The base row holds none of the contact keys |
| ProfileRoute.ProfileDataFields | app/api/admin/profile/route.ts:49-64 | The contact fields are the body's, `image_url` prefers `imageUrl`, the id is the profile key, and no other column is written |
| ProfileRoute.BuildProfileData | app/api/admin/profile/route.ts:49-64 | The seven conditional additions build exactly the profile row |
| ProfileRoute.PutProfile | app/api/admin/profile/route.ts:37-85 | 401 without a user. A store error gives 500 with its message as details. Otherwise the row under the profile key is upserted and answered |
| ProfileRoute.OmittedKept | app/api/admin/profile/route.ts:58-64 | A contact field the body omits keeps its stored value |
| ProfileRoute.GivenStored | app/api/admin/profile/route.ts:58-64 | A contact field the body defines is stored |
| ProfileRoute.PutTwice | app/api/admin/profile/route.ts:49-68 | The same body upserted twice gives the same table as once |
| ProfileRoute.PublicProfile | app/api/profile/route.ts:17-21 | `imageUrl` is `image_url`, else `imageUrl`. Falsy GitHub and LinkedIn links become null. Every other column passes through |
| ProfileRoute.DefaultProfile | app/api/profile/route.ts:22-29 | Without a row, the default profile with null image and links |
| ProfileRoute.FallbackProfile | app/api/profile/route.ts:34-38 | On an error, only the default name, title and description |
| ProfileRoute.GetPublicProfile | app/api/profile/route.ts:4-40 | Always 200: the row's public form, the default profile without a row, the fallback on any other error |
| ContactInfoManager.EmptyForm | components/admin/ContactInfoManager.tsx:19-27 | The seven contact fields, all '' |
| ContactInfoManager.LoadForm | components/admin/ContactInfoManager.tsx:39-47 | Exactly the seven fields, each the profile's value when truthy, else '' |
| ContactInfoManager.LoadFormIdempotent | components/admin/ContactInfoManager.tsx:39-47 | Loading a loaded form gives it back |
| ContactInfoManager.Fetch | components/admin/ContactInfoManager.tsx:33-58 | Only an OK, non-null answer fills the form |
| ContactInfoManager.UpdateOf | components/admin/ContactInfoManager.tsx:69-79 | The current profile with the seven contact fields replaced by the form's and `imageUrl` set to `image_url`, else `imageUrl`; every other field is preserved |
| ContactInfoManager.CurrentAsWritten | components/admin/ContactInfoManager.tsx:66-67 | An OK read gives its answer, null included; a failed one gives {} |
| ContactInfoManager.UpdateDataAsWritten | components/admin/ContactInfoManager.tsx:67-78 | As written, nothing is sent exactly when the read is OK and answers null |
| ContactInfoManager.NoProfileNothingSent | components/admin/ContactInfoManager.tsx:67-78 | As written, the first save before any profile row sends nothing |
| ContactInfoManager.UpdateData | components/admin/ContactInfoManager.tsx:67-79 | Corrected: the merge starts from the profile when there is one, else from {} |
| ContactInfoManager.UpdateDataAgrees | components/admin/ContactInfoManager.tsx:67-79 | Wherever a profile row is answered, the corrected body is the one sent as written |
| ContactInfoManager.AfterSave | components/admin/ContactInfoManager.tsx:86-94 | Success on a 2xx answer; the answer's error or 'Unknown error' otherwise; the catch-all message when nothing was sent |
| ContactInfoManager.LoadedIsFilled | components/admin/ContactInfoManager.tsx:39-47 | A loaded form defines all seven fields |
| ContactInfoManager.ResentKey | components/admin/ContactInfoManager.tsx:69-70 | A row read and resent keeps its id, so the same row is upserted |
| ContactInfoManager.ResentContact | components/admin/ContactInfoManager.tsx:69-79 | The row written from a save holds the form's seven contact fields |
| ContactInfoManager.ResentOthers | components/admin/ContactInfoManager.tsx:66-79 | Every other column the save writes holds the stored row's value |
| ContactInfoManager.SaveChangesOnlyContact | components/admin/ContactInfoManager.tsx:65-84 | Saving upserts the same row. Its seven contact columns become the form's, every other column keeps its value, and other rows are untouched |
| ContactInfoManager.FirstSaveKey | components/admin/ContactInfoManager.tsx:67 | Corrected: with no profile row the body has no id, so the fixed singleton id is used |
| ContactInfoManager.FirstSaveCreatesRow | components/admin/ContactInfoManager.tsx:67-79 | Corrected: the first save creates the row holding the form's contact fields |
| AboutRoute.Default | app/api/about/route.ts:17-20 | Title 'About Me' with the fixed default content, and nothing else |
| AboutRoute.GetAbout | app/api/about/route.ts:4-28 | Always 200: the row unchanged, or the default when there is no row or any other error |
| AboutRoute.AboutIsObject | app/api/about/route.ts:17-26 | The answer is never null |
| About.Initial | components/About.tsx:7-11 | Before any fetch, the route's default title and content, with no image |
| About.AfterFetch | components/About.tsx:17-20 | Only an OK, non-null answer replaces the section |
| About.AfterProfile | components/About.tsx:29-32 | The profile image is taken only from an OK answer with a truthy `imageUrl` |
| About.ProfileImageShown | components/About.tsx:29-32 | A truthy stored `image_url` is the image shown |
| About.Paragraphs | components/About.tsx:44 | The lines with some non-whitespace character, untrimmed; none for empty or missing content |
| About.ParagraphsCons | components/About.tsx:44 | Lines become paragraphs one at a time, in order |
| About.OneLine | components/About.tsx:44 | A single non-blank line is a single paragraph |
| About.Render | components/About.tsx:109-126 | The paragraphs when there are some, else the raw content as one block |
| About.BlankContentRaw | components/About.tsx:44 | All-whitespace content is shown raw |
| ContactRoute.Submission | app/api/contact/route.ts:24-32 | The stored submission holds the four fields as sent and `read` false |
| ContactRoute.RecipientOf | app/api/contact/route.ts:40-53 | The profile's email when truthy, else `CONTACT_EMAIL` when set, else the placeholder; never falsy |
| ContactRoute.ChooseRecipient | app/api/contact/route.ts:40-50 | The handler's two assignments choose RecipientOf |
| ContactRoute.MailFor | app/api/contact/route.ts:58-62 | To the recipient, reply-to the sender, and the subject is "Portfolio Contact: " + subject |
| ContactRoute.PostContact | app/api/contact/route.ts:7-120 | An unparsable body gives 500; a falsy field gives 400 "All fields are required" before any store call. Otherwise the submission is appended unless the insert fails, a mail goes out exactly when the mail key is set, and the answer is `{success: true}` |
| ContactRoute.StoredAppends | app/api/contact/route.ts:22-32 | A stored submission is last and unread, and earlier ones are kept |
| ContactRoute.ProfileEmailWins | app/api/contact/route.ts:48-50 | With a profile email, `CONTACT_EMAIL` does not matter |
| ContactForm.Validate | components/Contact.tsx:10-15 | Each field's message is absent exactly when it passes, and is otherwise the schema's text: name at least 2, a valid email, subject at least 3, message at least 10, lengths counted in UTF-16 code units as JavaScript's `length` counts them |
| ContactForm.AstralNamePasses | components/Contact.tsx:11 | A name of one character above U+FFFF is two code units long and meets the two-character minimum |
| ContactForm.PlainTextCountsCharacters | components/Contact.tsx:11 | For a name inside the Basic Multilingual Plane the minimum counts characters |
| Text.Utf16Length | components/Contact.tsx:11-14 | JavaScript's `length`: between the number of characters and twice it, equal to it exactly when no character is above U+FFFF, and larger when one is |
| ContactForm.Body | components/Contact.tsx:69-73 | The POST carries the four fields |
| ContactForm.ValidPassesRoute | components/Contact.tsx:10-15 | A form the schema accepts passes the route's required-field check |
| ContactForm.RouteLooserThanForm | app/api/contact/route.ts:12 | A one-character name is refused by the form and accepted by the route |
| ContactForm.AfterFetch | components/Contact.tsx:46-55 | With an OK, non-null profile, each of email, phone and location is the profile's when truthy, else its default |
| ContactForm.NoProfileShowsDefaults | components/Contact.tsx:50-54 | With no profile row, the section shows its defaults |
| ContactForm.Items | components/Contact.tsx:89-93 | Email and phone link with `mailto:` and `tel:`; location has no link |
| ContactForm.Section.constructor | components/Contact.tsx:26-27 | The section starts idle, not sending, with an empty form |
| ContactForm.Section.Start | components/Contact.tsx:65-66 | The submit begins: sending, status back to idle, the form untouched |
| ContactForm.Section.Finish | components/Contact.tsx:75-86 | A 2xx answer is a success and resets the form. Anything else is an error and keeps it. Sending is over in every case |
| ContactForm.Section.Submit | components/Contact.tsx:64-87 | The status after a submit is decided by the answer alone; sending is false afterwards |
| ContactForm.Section.SubmitToRoute | components/Contact.tsx:64-87 | A valid form sent to the contact route always ends in success with the form emptied |
| ContactForm.Section.StatusTimeout | components/Contact.tsx:78 | The timer returns the status to idle |
| ImageUpload.Check | components/admin/ImageUpload.tsx:31-41 | A non-image type is refused first, then a size over 5 MiB; otherwise nothing is refused |
| ImageUpload.LimitIsInclusive | components/admin/ImageUpload.tsx:38 | Exactly 5 MiB passes and one byte more does not |
| ImageUpload.TypeBeforeSize | components/admin/ImageUpload.tsx:32-41 | A non-image is refused as such whatever its size |
| ImageUpload.ThrownMessage | components/admin/ImageUpload.tsx:55-62 | The error's message, with the setup hint added when it is about storage policies |
| ImageUpload.Field.constructor | components/admin/ImageUpload.tsx:22-24 | The input starts from the `value` prop, '' when absent |
| ImageUpload.Field.HandleFileSelect | components/admin/ImageUpload.tsx:27-70 | No file does nothing. A refused file only sets its message, stays chosen in the file input and uploads nothing. A non-empty URL is shown and reported; an empty one or a throw only sets a message. Uploading ends and the file input is cleared |
| ImageUpload.Field.BeginUpload | components/admin/ImageUpload.tsx:43-44 | The upload starts with uploading set and no message; the input is untouched |
| ImageUpload.Field.HandleUrlChange | components/admin/ImageUpload.tsx:72-76 | The typed URL is shown and reported |
| ImageUpload.Field.HandleClear | components/admin/ImageUpload.tsx:78-82 | The input is emptied, '' reported and the message cleared |
| Sorting.SortBy | components/Skills.tsx:101-105 | The sort is ordered by its key and a permutation of its input |
| Sorting.SortStable | components/Skills.tsx:101-105 | Like `Array.prototype.sort`, it is stable: items with equal keys keep their order |
| Sorting.SortSorted | components/admin/SkillsManager.tsx:188-195 | Sorting an already ordered list leaves it unchanged |
| Sorting.SortMembers | components/Skills.tsx:101-105 | The sort keeps exactly the same elements |
| Sorting.SortDistinct | components/Skills.tsx:78-80 | Sorting a list without duplicates gives one without duplicates |
| Lines.NonBlank | components/About.tsx:44 | `filter(p => p.trim())` keeps exactly the non-blank lines |
| Lines.TrimThenDrop | app/journey/page.tsx:108-110 | Trimming then dropping empty items equals dropping blank lines then trimming |
| Text.JoinSplit | lib/supabase/client.ts:17-18 | Joining the pieces of a split with the same separator gives back the text |
| Text.SplitJoin | components/admin/ProjectsManager.tsx:79 | Splitting joined pieces that avoid the separator gives the pieces back |
| Text.SplitAtFirst | lib/supabase/client.ts:17 | A split stops at the first separator: the text before it is the first piece |
| Text.ToLower | components/Projects.tsx:60 | Lowercasing is character by character and keeps the length |
| Text.ToLowerIdempotent | components/Skills.tsx:27 | Lowercasing twice is lowercasing once |
| Text.TrimSpec | app/journey/page.tsx:25 | `trim()` gives a trimmed text and leaves a trimmed one unchanged |
| Text.ReplaceFirstAt | components/ProjectModal.tsx:226-233 | `replace` with a string pattern replaces its first occurrence only |

## Left out

- The store runs no queries here. Ordering (`order(...)`), filtering and `.single()` are the store's job. Their results are parameters: a list of rows or a store error, and a found row or an error code.
- The identity provider is a parameter: the token check's reply and the cookie session's reply. Login, logout, the server client and `lib/auth-helpers.ts` are not part of this model.
- Network transport, React rendering, animations, styling and `alert` are not modelled. A component's handlers are modelled through the state they change.
- Timers are separate operations (`Modal.CopiedExpires`, `Section.StatusTimeout`), not delays.
- `new Date().toISOString()` in the journey PUT is a parameter `now`.
- The image upload itself (`lib/supabase/storage.ts`) is not part of this model: its outcome is a parameter.
- ImageUpload.Field.HandleFileSelect: the `Threw` outcome cannot come from `uploadImage` in `lib/supabase/storage.ts`, which catches its own errors (lines 38-41) and returns null. The component's catch branch is kept because the outcome is a parameter, so the messages built at `lib/supabase/storage.ts:24-26` never reach the field.
- The Resend mail call and the mail's HTML and text bodies are not modelled. Only whether a mail is handed over, to whom, with what reply-to and subject.
- Zod's email format check is a parameter `emailValid`.
- `JSON.parse` is modelled on JSON arrays of strings, the only stored form of technologies. Any other text counts as a parse failure, and so does a string that escapes a lone UTF-16 surrogate (a Dafny character cannot hold one; an escaped surrogate pair is decoded).
- ProjectsRoute.ReadTechnologies: a truthy stored value that is neither a string nor an array (a number, `true`) is reported as a failure, where `JSON.parse` would turn it back into that value; the column only ever holds the JSON text or an array.
- `encodeURIComponent`/`decodeURIComponent` are modelled on strings of Unicode scalar values, with UTF-8 escapes. A JavaScript string holding a lone surrogate, on which `encodeURIComponent` throws, cannot be written in this model.
- `trim`, `toLowerCase` and `toUpperCase` are modelled on ASCII whitespace and letters only.
- JavaScript numbers are integers here. No fractional order or proficiency is modelled.
- SkillsRoute.PatchSkills: the entries run one after the other, not concurrently under `Promise.all`, and each entry's own store errors are not modelled (the answer is success either way, as in the code).
- SkillsManager.MoveCategoryExchanges: states that the two categories exchange their orders, not that the multiset of all `category_order` values is kept. That stronger claim is false when the two categories have different numbers of skills.
- ProfileRoute.BuildProfileData: the seven `if (body.x !== undefined)` statements are a loop over the seven contact keys, in the same order.
- ImageUpload.ThrownMessage: the fallback text's own lack of a policy phrase is not proved, so its contract is silent on an empty or missing message.
- About.Paragraphs: a truthy content that is not a string is treated as having no paragraphs (the code would throw on `split`).
- An unparsable request body falls into each handler's `catch` and gets that handler's 500 answer. This is modelled only for the contact route; the admin routes take bodies that parse.
- The public and admin project listings normalise rows with the same code, so one `ProjectsRoute.ReadProject` serves both. Both answer 500 when a stored technologies text does not parse, so the two read paths do not differ here.
- `lib/supabase/client.ts` also builds an admin client with the service key. It is not part of this model.

## Findings

| source | as written | input that shows it | evidently intended | confidence | as-written member | corrected member |
|---|---|---|---|---|---|---|
| app/api/admin/project-filters/route.ts:79 | `display_order: rest.displayOrder or rest.display_order` treats an order of 0 as absent, so the column is not updated | Filters A (order 0) and B (order 1); moving B up sends B with `displayOrder` 0, which is dropped, then A with 1, so both end at 1 | A defined `displayOrder`, 0 included, is written | not executed | FiltersManager.MoveOntoZeroAsWritten | FiltersManager.MoveSwaps |
| components/admin/ContactInfoManager.tsx:67-78 | `currentProfile` is the admin GET's answer, which is `null` when no profile row exists; reading `currentProfile.image_url` then throws | The first contact save on a fresh install: the GET answers 200 with `null`, the handler throws before the PUT, and only the generic error is shown | A missing profile counts as `{}`, so the first save creates the row under the singleton id | not executed | ContactInfoManager.NoProfileNothingSent | ContactInfoManager.FirstSaveCreatesRow |
