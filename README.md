# Blog backend: post and authentication handlers

A Dafny model of the two controllers of an Express/Mongoose blog backend.

- **Posts** (`controllers/postController.js`). The document store is a map
  from post id to post record (title, content, author id, creation stamp).
  `PostStore` holds that map and two counters: the next post id and the
  creation clock. Its methods `CreatePost`, `UpdatePost` and `DeletePost` are
  the handlers that change the store. Each takes the authenticated requester's
  id as a parameter, since the router puts those three behind the
  authentication middleware. `GetPost` and `GetPosts` are the public reads, as
  functions of the map. `GetPosts` covers the pagination arithmetic (`Pages`,
  `NextRef`, `PrevRef`). The returned page is a window of `Newest`, the
  store's posts sorted newest first.
- **Authentication** (`controllers/authController.js`). The user store is a map
  keyed by email. `UserStore.Register` validates the fields, rejects a duplicate
  email, then inserts. `Login` validates the fields, looks up the email, checks
  the password, then issues a token. `GetMe` returns the identity the request
  carries. Password checking uses an ideal hash: `HashPassword` and
  `MatchPassword` accept exactly the plaintext the hash was made from. A token
  (`GenerateToken`) is a value carrying the user id and the configured lifetime.

Every handler answers with a `Reply`: a status code with data, or a status code
with the error message. The codes and messages are the source's own.

## Model

| member | source | states |
|---|---|---|
| `PostController.GetPost` | controllers/postController.js:60-64 | succeeds exactly when the id is stored, with status 200 and that post; otherwise 404 "Post not found"; takes no requester, so no ownership check |
| `PostController.ApplyPatch` | controllers/postController.js:76-78 | a field present in the body replaces the stored one (the empty string too); an absent field is kept; author and creation stamp never change |
| `PostController.CeilDiv` | controllers/postController.js:33 | `Math.ceil(total / limit)`: the least c with `(c-1)*limit < total <= c*limit` |
| `PostController.Pages` | controllers/postController.js:33 | the page count is at least 1; it is 1 for an empty store, and otherwise the ceiling of total/limit |
| `PostController.PageOf` | controllers/postController.js:28-29 | the requested page, 1 when the `page` parameter was not sent |
| `PostController.LimitOf` | controllers/postController.js:28-30 | the page size, 10 when the `limit` parameter was not sent |
| `PostController.Skip` | controllers/postController.js:34 | the posts skipped before the page: with the page's own `limit` posts they fill `page` pages, and none are skipped for page 1 |
| `PostController.NotLastPage` | controllers/postController.js:34-43 | `skip + limit < total` holds exactly when the page is before the last page |
| `PostController.NotFirstPage` | controllers/postController.js:34-44 | `skip > 0` holds exactly when the page is after page 1 |
| `PostController.NextRef` | controllers/postController.js:42-43 | `next` is present iff page < pages, and is then {page+1, limit} |
| `PostController.PrevRef` | controllers/postController.js:42-44 | `prev` is present iff page > 1, and is then {page-1, limit} |
| `PostController.PaginationOfTwentyFive` | controllers/postController.js:33-44 | 25 posts, 10 per page: 3 pages; page 1 has next {2,10} and no prev; page 3 has prev {2,10} and no next |
| `PostController.LatestExists` | controllers/postController.js:38 | a non-empty store has a post that no other post was created after |
| `PostController.Newest` | controllers/postController.js:36-38 | lists every stored post exactly once and nothing else, in non-increasing `createdAt` order |
| `PostController.NewestPostFirst` | controllers/postController.js:38 | a post created after all others is the first post of the newest-first order |
| `PostController.PageWindow` | controllers/postController.js:39-40 | the `[skip, skip+limit)` window of a newest-first listing: at most `limit` entries, empty past the end, stored posts only, still newest first |
| `PostController.PageData` | controllers/postController.js:36-40 | the page holds at most `limit` posts, taken from rank `skip` of the newest-first order; it is empty when `skip >= total` and holds `min(limit, total-skip)` posts otherwise |
| `PostController.GetPosts` | controllers/postController.js:27-55 | status 200; total is the store size, pages as above, data is the page window, count equals the data length and is at most limit, pagination holds the next/prev descriptors; the store is not changed |
| `PostController.PostStore.CreatePost` | controllers/postController.js:8-22 | a missing or empty title or content gives 400 "Please provide title and content" and changes nothing; otherwise status 201 and exactly one new post, authored by the requester and newer than every stored post |
| `PostController.PostStore.UpdatePost` | controllers/postController.js:69-82 | unknown id gives 404; a requester who is not the author (ids compared by value) gets 401 and nothing changes; the author's update stores `ApplyPatch` of the post and answers 200 with it; no other post changes, and no post changes author |
| `PostController.PostStore.DeletePost` | controllers/postController.js:87-96 | unknown id gives 404; a non-author gets 401 and nothing changes; the author's delete removes exactly that post and answers 200, so a second delete of that id gives 404 |
| `AuthController.HashPassword` | controllers/authController.js:23 | the stored hash accepts the registered password and no other candidate |
| `AuthController.MatchPassword` | controllers/authController.js:49-50 | stands in for the bcrypt compare inside the User model's `matchPassword`, which is not shown: with the ideal hash, the candidate matches exactly when it is the plaintext the stored hash was made from |
| `AuthController.GenerateToken` | controllers/authController.js:7-9 | the token carries the given user id; its lifetime is `JWT_EXPIRE` when set and non-empty, "30d" otherwise |
| `AuthController.Login` | controllers/authController.js:38-62 | missing email or password gives 400 "Please provide email and password"; with both present it succeeds iff the email is stored and the password matches, every failure being 401 "Invalid credentials"; success is 200 with the stored user's id, name, email and a token for that id |
| `AuthController.LoginChecksFieldsFirst` | controllers/authController.js:42 | with a field missing, the reply is the same whatever the store holds: validation comes before lookup |
| `AuthController.LoginFailuresAlike` | controllers/authController.js:45-50 | an unknown email and a known email with a wrong password get identical replies |
| `AuthController.RegisterThenLogin` | controllers/authController.js:23-60 | a user just stored with the hash of a password logs in with that password, and the reply carries the same id, name and email and a token for the same id |
| `AuthController.GetMe` | controllers/authController.js:65-68 | answers 200 with exactly the identity given |
| `AuthController.UserStore.Register` | controllers/authController.js:12-35 | a missing or empty field gives 400 "Please provide name, email and password"; then a stored email gives 400 "User already exists" whatever the password; both leave the store unchanged; otherwise exactly one user is added, with status 201 and id, name, email and a token for that id (no password), and the same credentials then log in as that id |

The record shapes follow `models/Post.js:4-20` (title, content and author
required; timestamps on). The reply types `UserSummary` and `Profile` have no
password field, so no reply can carry the password or its hash.

## Left out

- Express routing, the database connection, middleware and process startup
  (`server.js`, `routes/posts.js`): the only fact used is that create, update
  and delete are authenticated, which the explicit requester parameter stands for.
- The authentication middleware, `asyncHandler`, `ErrorResponse` and the
  central error handler: they are not part of this model. An error becomes a
  `Failure` reply with the status and message the controller passes.
- The User model (hashing in a save hook, `matchPassword`, any schema
  validation or email normalisation): it is not part of this model. bcrypt is
  replaced by an ideal hash; the random salt is a parameter of `Register`.
  bcrypt looks only at the first 72 bytes of a password, so the real login also
  accepts a candidate that agrees with a longer password on those bytes; the
  ideal hash does not.
- `jsonwebtoken`: the signing secret, the signature and the expiry check are not
  modelled; a token is the id it carries and its configured lifetime string.
  Model tokens carry no issue time (`iat`, `exp`), so two tokens for one id
  compare equal, where real tokens signed in different seconds differ.
- AuthController.GenerateToken: assumes a valid configuration, that is, a
  signing secret is set and `JWT_EXPIRE` is unset, empty or a timespan that
  jsonwebtoken accepts. Otherwise `jwt.sign` throws and no token is issued.
- AuthController.Login: assumes the same valid configuration. Otherwise the
  token signing throws and valid credentials get an error reply, not 200.
- AuthController.UserStore.Register: assumes the same valid configuration.
  Otherwise `jwt.sign` throws after `User.create` has inserted the user, so the
  user stays stored and the reply is an error; the contract rules that out.
- Post ids are well-formed ObjectIds, modelled as naturals. The CastError that
  `Post.findById` raises on a malformed id, and a failed store call, both skip
  the "Post not found" branch and are passed on by `asyncHandler` to the error
  handler; neither path is modelled.
- `populate('author', 'name email')`: replies carry the author id, not the
  author's name and email.
- Mongoose validation at `post.save()`: the schema's `required` check would
  reject an empty title or content written by an update. The model applies the
  body's fields as the controller's lines 77-78 do and does not model that
  rejection or the status the error handler would give it.
- `PostController.GetPosts`: requires page and limit of at least 1. `parseInt`
  on malformed query strings and a limit of 0 (Infinity and NaN in the page
  arithmetic) are not modelled; a parameter that was not sent takes the
  source's defaults, page 1 and limit 10.
- JSON body values that are not strings (numbers, `null`, objects) are not
  modelled: a body field is absent or a string.
- The `updatedAt` timestamp is not modelled; `createdAt` comes from a counter
  that grows with each create, not from a clock.
- The email check-then-create race and any concurrent update or delete: the model
  is sequential.
- `deletePost` calls `post.remove()`; the model takes it as removal of the
  record from the store. That method exists only in Mongoose versions before 7;
  the version in use is not known here, and on a later one the author's delete
  would fail instead of answering 200.
