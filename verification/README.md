# Inventory management: a Dafny model

This project models an inventory management application: an Express and Sequelize backend over
three tables (users, products and inventory records), and a React frontend for sellers.

On the backend the model covers:

- the authentication chain: `register`, `login`, `getProfile` and the `protect` middleware with its
  Bearer-token and expiry checks;
- the product and inventory controllers, where listing is scoped to the requesting seller;
- the `Product`, `Inventory` and `User` models, with validation, defaults and the hooks;
- the product id generator, `DDMMYYYY-category-username-hex`;
- the three migrations;
- the two route tables and how `app.js` mounts them;
- the dynamic model registry of `models/index.js`.

On the frontend the model covers:

- the axios client with its token interceptors and URL builders;
- the pure logic of the Dashboard, Products, Inventory, LowStockAlerts and RegisterForm
  components;
- the routing shell of `App.jsx`.

The store is an immutable value (`Store.Db`). Every handler is a function from a store and a
request to a response and the next store. `Store.Valid` collects every constraint the models and
migrations declare: primary keys, unique indexes, foreign keys, NOT NULL and the value bounds.
Each handler that writes is proved to keep it.

bcrypt, jsonwebtoken and the `isEmail` validator are parameters (`External.Primitives`). Their
behaviour is fixed only by the laws in `External.Lawful`. The clock, the random bytes, the UUIDs
and the UTC calendar fields are parameters too.

JSON request fields are tri-state (`Field`: absent, `null` or a value). The distinction matters:

- Sequelize applies column defaults only to undefined attributes;
- `updateInventory` assigns `null` when it is sent.

In the browser, a response body is abstracted to its shape (`ClientData.Json`): an array, an
object with the one property the component reads, or a scalar.

Files, one module each:

| file | module |
|---|---|
| wrappers.dfy | `Option`, `Result` |
| seqs.dfy | filtering, windows, lookup by key, distinct keys |
| text.dfy | ASCII lower-casing, whitespace stripping, `split`, SQLite `LIKE`, `String(n)`, `padStart`, `parseInt` |
| external.dfy | the library primitives and their laws |
| http.dfy | status codes, `Response` |
| store.dfy | the three tables, their constraints, inserts, updates and cascading deletes |
| user_model.dfy | `User` validation, `beforeSave`, `comparePassword`, `User.create` |
| product_model.dfy | `Product` validation, the id hook, `product.update` |
| inventory_model.dfy | `Inventory` defaults, validation and create |
| auth_middleware.dfy | `protect` |
| auth_controller.dfy | `register`, `login`, `getProfile` |
| product_controller.dfy | the product handlers |
| inventory_controller.dfy | the inventory handlers |
| migrations.dfy | the three migrations as schema transitions |
| routes.dfy | the route tables, matching, middleware dispatch |
| model_registry.dfy | `initializeModels` |
| api_client.dfy | `services/api.js` |
| client_data.dfy | the JSON shapes and field fallbacks the components share |
| low_stock_alerts.dfy, dashboard.dfy, inventory_page.dfy, products_page.dfy, register_form.dfy, app_shell.dfy | the components |

## Model

| member | source | states |
|---|---|---|
| External.SecondsAgreeWithMillis | backend/middlewares/authMiddleware.js:25-27 | the middleware's millisecond test `Date.now() >= exp * 1000` holds exactly when jsonwebtoken's whole-second test `floor(now / 1000) >= exp` does, so the two expiry checks never disagree |
| UserModel.Validate | backend/models/userModel.js:12-41 | validation passes exactly when every column is non-null, username, email and password are not blank (neither empty nor whitespace only, as `notEmpty` demands), and the email is accepted by `isEmail` |
| UserModel.BeforeSave | backend/models/userModel.js:43-47 | the hook touches only the password: a changed one is replaced by its hash, an unchanged one is kept as is |
| UserModel.SavesHashOnce | backend/models/userModel.js:43-47 | after any sequence of saves the stored password is the hash of the last plaintext assigned, hashed exactly once; saves that leave the password alone never re-hash it |
| UserModel.ComparePasswordAfterSaves | backend/models/userModel.js:49-51 | after saves that assigned a password, `comparePassword` accepts that last plaintext and nothing else |
| UserModel.CreateUser | backend/models/userModel.js:12-47 | `User.create` succeeds exactly when validation passes (so a whitespace-only username, email or password fails) and neither the primary key, the username nor the email is taken; the stored row holds the body's fields, the hashed password and the creation time |
| UserModel.CreateUserValid | backend/models/userModel.js:12-41 | inserting a created user keeps every table constraint (unique keys, unique username and email) |
| UserModel.CreatedPasswordIsHashed | backend/models/userModel.js:43-51 | a created user's stored password differs from the submitted plaintext, and only that plaintext passes `comparePassword` |
| AuthMiddleware.BearerTokenRoundTrip | backend/middlewares/authMiddleware.js:16-20 | for a token without spaces, the header `Bearer <token>` passes the prefix test and `split(' ')[1]` gives back exactly the token |
| AuthMiddleware.Protect | backend/middlewares/authMiddleware.js:13-51 | every refusal is a 401; a missing or non-Bearer header is "No token provided"; a verification error gets its catch-block message; an expired token is "Token has expired"; a payload without an id, or an id no user has, is "User not found"; a throwing lookup is "Unauthorized"; `next()` is called exactly when the token verifies, is not expired by its non-zero `exp`, names an existing user, and the lookup does not throw, and then `req.user` is that user without the password |
| AuthMiddleware.ThrownErrorMessages | backend/middlewares/authMiddleware.js:39-50 | a verification error is answered with 401 and "Token has expired", "Invalid token format" or "Unauthorized" by the error's name |
| AuthMiddleware.IssuedTokenAuthenticates | backend/middlewares/authMiddleware.js:13-38 | a token signed for an existing user, presented before its expiry second, lets the request through with that user as `req.user` |
| AuthMiddleware.IssuedTokenExpires | backend/middlewares/authMiddleware.js:22-27 | the same token at or after its expiry second is refused with 401 "Token has expired", whatever the store does |
| AuthMiddleware.DeletedUserRejected | backend/middlewares/authMiddleware.js:29-35 | once its user is deleted, a still unexpired token is refused with 401 "User not found" |
| AuthController.Register | backend/controllers/authController.js:22-48 | a successful create answers 201 with a token for the new id and the four public fields and stores the user; a failed create answers 400 "Registration failed" with the create's error and stores nothing |
| AuthController.RegisterDuplicateRefused | backend/controllers/authController.js:22-48 | registering a username or email already in use answers 400 "Registration failed" and leaves the store unchanged; when the body is otherwise acceptable the error is the username or email unique index |
| AuthController.Login | backend/controllers/authController.js:60-76 | every refusal is 401 "Invalid credentials"; a null username or an unknown username is refused; for a stored username and a given password, a matching password gets 200 with a token for that user's id and its four public fields, and any other gets 401; a 200 always carries a token for the user with that username whose stored hash matches the password |
| AuthController.LoginFailuresIndistinguishable | backend/controllers/authController.js:60-65 | an unknown username and a known username with a wrong password get the identical response |
| AuthController.LoginUnknownIgnoresCompare | backend/controllers/authController.js:63 | for an unknown username the answer does not depend on the password comparison at all |
| AuthController.StoredUserLogsIn | backend/controllers/authController.js:60-76 | any stored account logs in with the password its hash was made from and gets a token for its own id; any other password gets 401 |
| AuthController.GetProfile | backend/controllers/authController.js:88-93 | 404 "User not found" exactly when no user is attached; otherwise 200 with the attached user unchanged |
| AuthController.RegisterThenLogin | backend/controllers/authController.js:22-76 | after registering, logging in with the same username and password succeeds, and the token it returns passes `protect` as the user registration created |
| ProductModel.TwoDigits | backend/models/productModel.js:52-53 | `padStart(2, '0')` of a day or month gives only digits, exactly two of them below 100 |
| ProductModel.DatePart | backend/models/productModel.js:51-55 | the date part is all digits |
| ProductModel.DatePartLength | backend/models/productModel.js:51-55 | day and month always take two characters, so a four-digit year gives the eight-character DDMMYYYY |
| ProductModel.DatePartRoundTrip | backend/models/productModel.js:51-55 | reading two digits of day, two of month and the rest as the year gives back the calendar date: the date part loses nothing |
| ProductModel.Hex | backend/models/productModel.js:58 | `toString('hex')` gives two lowercase hex digits per byte |
| ProductModel.HexRoundTrip | backend/models/productModel.js:58 | decoding the hex text two digits at a time gives back the random bytes |
| ProductModel.HexIsLowerNoSpace | backend/models/productModel.js:58 | the random part has no whitespace, no capital and no '-' |
| ProductModel.Sanitize | backend/models/productModel.js:60-62 | the sanitised category or username has no whitespace and no capital letter |
| ProductModel.SanitizeIdempotent | backend/models/productModel.js:60-62 | sanitising twice is sanitising once |
| ProductModel.SanitizeCategory | backend/models/productModel.js:60-62 | for each of the five categories the id segment is the name lower-cased and holds no '-' |
| ProductModel.GenerateId | backend/models/productModel.js:50-65 | the generated id has no whitespace and no capital, and its length is the parts' lengths plus eight hex digits and three dashes |
| ProductModel.IdLayout | backend/models/productModel.js:64-65 | the id is the date part, '-', the sanitised category, '-', the sanitised username, '-', then the eight hex digits, each at its position |
| ProductModel.IdSegments | backend/models/productModel.js:64-65 | splitting an id at '-' gives back the date part first and the lower-cased category name second |
| ProductModel.Validate | backend/models/productModel.js:19-28 | validation passes exactly when every column is non-null and the price is at least 100.00; the category's value is not compared with the ENUM's list |
| ProductModel.UndeclaredCategoryPasses | backend/models/productModel.js:23 | a category outside the five declared names passes creation and update checks exactly as a declared one would |
| ProductModel.CreateProduct | backend/models/productModel.js:19-66 | `Product.create` succeeds exactly when the body validates, the seller exists and the generated id is free; an unknown seller throws "Seller not found"; the row holds the body's fields and the generated id |
| ProductModel.CreateProductValid | backend/models/productModel.js:19-66 | inserting a created product keeps every table constraint |
| ProductModel.ClientIdIgnored | backend/models/productModel.js:43-65 | the id a client sends has no effect: the hook overwrites it |
| ProductModel.PatchProduct | backend/controllers/productController.js:148 | `product.update(body)` succeeds exactly when the given fields validate and a given seller exists; only the given fields change, `updatedAt` moves only on a real change, and a valid row stays valid |
| ProductModel.EmptyPatchIsIdentity | backend/controllers/productController.js:148 | an update with an empty body changes nothing, not even `updatedAt` |
| InventoryModel.CreateInventory | backend/models/inventoryModel.js:9-37 | `Inventory.create` succeeds exactly when the product exists and has no record yet, the counts are non-null with quantity >= 0 and restockValue >= 1, and the id is free |
| InventoryModel.CreateInventoryValid | backend/models/inventoryModel.js:9-37 | inserting a created record keeps every table constraint |
| InventoryModel.OneInventoryPerProduct | backend/models/inventoryModel.js:44-45 | once a product has a record, a second create for the same product fails |
| InventoryModel.PatchInventory | backend/models/inventoryModel.js:23-34 | writing counts succeeds exactly when each written count is non-null and within its minimum; only the written counts change, and a valid row stays valid |
| ProductController.ViewOf | backend/controllers/productController.js:37-39 | the joined row is the product with `sellerDetails` present exactly when its seller exists, and then it is that seller |
| ProductController.Matching | backend/controllers/productController.js:27-33 | without a (truthy) seller filter every product counts; with one, exactly the products whose seller id is LIKE `%filter%`, the filter's own `%` and `_` acting as wildcards |
| Text.LikeContains | backend/controllers/productController.js:29-33 | SQLite LIKE with the pattern `%f%`, for `f` free of wildcards, is the ASCII case-insensitive substring test |
| ProductController.PlainFilterIsSubstring | backend/controllers/productController.js:29-33 | for a filter without `%` or `_`, LIKE `%filter%` holds exactly when the seller id contains the filter, ignoring ASCII case |
| ProductController.WildcardFilterMatchesAll | backend/controllers/productController.js:29-33 | the filters `%` and `_` list every product with a non-empty seller id |
| ProductController.GetAllProducts | backend/controllers/productController.js:23-45 | 200 with the window of matching products at the given offset and limit (defaults 10 and 0), each joined with its seller, the number of matches as `total`, and the numbers used; when the offset is below the total the page holds exactly the smaller of the limit and the rows left |
| ProductController.PageOf | backend/controllers/productController.js:35-45 | a page holds at most `limit` rows, exactly `min(limit, total - offset)` when the offset is inside, row i being the joined row at `offset + i` |
| ProductController.PageMatchesFilter | backend/controllers/productController.js:29-33 | every product on a filtered page has a seller like the filter |
| ProductController.OwnIdFindsOwnProducts | backend/controllers/productController.js:29-33 | filtering by one's own seller id finds every product one sells |
| ProductController.InsertNewest | backend/controllers/productController.js:100 | inserting into a newest-first list keeps it newest first and adds exactly that product |
| ProductController.SortNewest | backend/controllers/productController.js:100 | `ORDER BY createdAt DESC` gives a newest-first permutation of the rows |
| ProductController.Mine | backend/controllers/productController.js:91-100 | the requester's products, newest first: a permutation of the products whose seller is the requester |
| ProductController.GetMyProducts | backend/controllers/productController.js:86-102 | 200 with the window of the requester's products newest first, `min(limit, total - offset)` of them, and the count of all of them as `total` |
| ProductController.MyProductsNewestFirst | backend/controllers/productController.js:100 | the page `getMyProducts` lists is ordered newest first |
| ProductController.PageKeepsOrder | backend/controllers/productController.js:93-101 | a window of newest-first rows is newest first |
| ProductController.MyProductsAreMine | backend/controllers/productController.js:91 | every product `getMyProducts` lists is sold by the requester |
| ProductController.PageFromRows | backend/controllers/productController.js:93-101 | every product on a page is one of the rows the page was cut from |
| ProductController.GetProductById | backend/controllers/productController.js:61-69 | 404 "Product not found" exactly for an unknown id; a stored id always gets 200 with the stored product of that id joined with its seller |
| ProductController.CreateProductHandler | backend/controllers/productController.js:118-126 | 201 exactly when `Product.create` of the body with the requester as seller succeeds, answering with the created row and storing it; otherwise 400 "Error creating product" with nothing stored |
| ProductController.CreateIgnoresBodySeller | backend/controllers/productController.js:121 | whatever seller the body names, the outcome is the same: the requester is the seller |
| ProductController.CreateProductHandlerValid | backend/controllers/productController.js:118-126 | creating keeps every table constraint |
| ProductController.UpdateProduct | backend/controllers/productController.js:140-152 | 404 for an unknown id and 500 for a body that fails validation, both leaving the store as it was; a stored id with an acceptable body always gets 200 with the updated row, which replaces the stored one; any authenticated user may update any product |
| ProductController.UpdateTouchesOneProduct | backend/controllers/productController.js:148 | an update leaves every other product of the table as it was |
| ProductController.UpdateProductValid | backend/controllers/productController.js:140-152 | updating keeps every table constraint |
| ProductController.DeleteProduct | backend/controllers/productController.js:165-172 | 404 "Product not found" exactly for an unknown id; otherwise 204 and the product goes, with its inventory record by cascade; any authenticated user may delete any product |
| ProductController.DeleteRemovesExactlyOne | backend/controllers/productController.js:171 | deleting removes that product only: every other product stays, in order |
| ProductController.DeleteProductValid | backend/controllers/productController.js:165-172 | deleting keeps every table constraint |
| Store.Public | backend/middlewares/authMiddleware.js:29-31 | `req.user` carries every attribute of the user except the password |
| Store.ParseCategory | backend/models/productModel.js:12-23 | a string names a declared category only when it is exactly one of the five names |
| Store.ParseCategoryName | backend/models/productModel.js:12-23 | each category's own name names that category |
| Store.FindUser | backend/middlewares/authMiddleware.js:29 | `findByPk` finds a user exactly when the id is a stored user's id, and then it is that user |
| Store.FindUserByUsername | backend/controllers/authController.js:62 | `findOne({ where: { username } })` finds a user exactly when one has that username, and then it is that user |
| Store.FindProduct | backend/controllers/productController.js:142 | `findByPk` finds a product exactly when the id is stored, and then it is that product |
| Store.FindInventory | backend/controllers/inventoryController.js:74 | `findByPk` finds a record exactly when the id is stored, and then it is that record |
| Store.InsertProduct | backend/migrations/02-crete-products.js:3-35 | an insert adds the product's id to the table's keys and leaves the other tables alone |
| Store.InsertProductValid | backend/migrations/02-crete-products.js:3-35 | an insert with a fresh key, an existing seller and a valid price keeps every table constraint |
| Store.InsertInventory | backend/migrations/03-create-inventory.js:3-37 | an insert adds the record's id to the table's keys and leaves the other tables alone |
| Store.InsertInventoryValid | backend/migrations/03-create-inventory.js:3-43 | an insert with a fresh key, a product without a record, an existing product and valid counts keeps every table constraint |
| Store.ReplaceProduct | backend/controllers/productController.js:148 | an update rewrites one row and leaves every other row and table alone |
| Store.ReplaceProductValid | backend/migrations/02-crete-products.js:3-35 | an update that keeps the key, the price bound and an existing seller keeps every table constraint |
| Store.ReplaceInventory | backend/controllers/inventoryController.js:80 | an update rewrites one record and leaves every other row and table alone |
| Store.ReplaceInventoryValid | backend/migrations/03-create-inventory.js:3-43 | an update that keeps the key, the product and the count bounds keeps every table constraint |
| Store.DeleteInventory | backend/controllers/inventoryController.js:98 | deleting a record removes exactly the rows with that id and nothing else |
| Store.DeleteInventoryValid | backend/migrations/03-create-inventory.js:3-43 | deleting a record keeps every table constraint |
| Store.DeleteProductCascade | backend/migrations/03-create-inventory.js:10-16 | deleting a product removes it and, by `ON DELETE CASCADE`, exactly the inventory records of that product |
| Store.DeleteProductCascadeValid | backend/migrations/03-create-inventory.js:10-16 | the cascade leaves no dangling `productId`: every table constraint still holds |
| Store.InventoriesShrink | backend/migrations/03-create-inventory.js:10-16 | dropping inventory records whose product is gone keeps the inventory constraints |
| Store.ProductsShrink | backend/migrations/02-crete-products.js:18-24 | dropping products whose seller is gone keeps the product constraints |
| Store.UsersShrink | backend/migrations/01-create-users.js:3-23 | dropping users keeps the user constraints |
| Store.DeleteUserCascade | backend/migrations/02-crete-products.js:18-24 | deleting a user removes that user and the user's products, and keeps exactly the inventory records whose product that user did not sell, in order: no product of that seller and no inventory record of such a product is left |
| Store.DeleteUserCascadeValid | backend/migrations/02-crete-products.js:18-24 | the two-level cascade keeps every table constraint |
| Store.SellersSurvive | backend/migrations/02-crete-products.js:18-24 | the seller of every product not sold by the deleted user still exists |
| Store.ProductsSurvive | backend/migrations/03-create-inventory.js:10-16 | the product of every record not stocking the deleted user's products still exists |
| InventoryController.ViewOf | backend/controllers/inventoryController.js:36-37 | the joined row is the record with `productDetails` present exactly when its product exists, and then it is that product |
| InventoryController.GetAllInventories | backend/controllers/inventoryController.js:7-19 | 200 with stored records only, each joined with its product, which the requester sells |
| InventoryController.ListedIffOwned | backend/controllers/inventoryController.js:9-16 | a record is listed for a requester exactly when its product is sold by that requester |
| InventoryController.TenantsDisjoint | backend/controllers/inventoryController.js:9-16 | two different requesters never see the same record |
| InventoryController.GetInventoryById | backend/controllers/inventoryController.js:33-40 | 404 "Inventory not found" exactly for an unknown id; a stored id always gets 200 with that record joined with its product, whoever sells it |
| InventoryController.CreateInventoryHandler | backend/controllers/inventoryController.js:50-63 | 400 "Invalid productId" exactly when the product does not exist; 201 exactly when the create succeeds, storing the new record; 500 otherwise; nothing is stored unless 201 |
| InventoryController.CreateInventoryHandlerValid | backend/controllers/inventoryController.js:50-63 | creating keeps every table constraint |
| InventoryController.UpdateInventory | backend/controllers/inventoryController.js:69-85 | 404 for an unknown id; 500 with nothing stored when a written count is null or out of bounds; otherwise 200 with the record whose defined counts were replaced |
| InventoryController.UpdateChangesOnlyCounts | backend/controllers/inventoryController.js:77-80 | a successful update changes only the counts of that one record: its id and product, every other record and every other table stay |
| InventoryController.UpdateInventoryValid | backend/controllers/inventoryController.js:69-85 | updating keeps every table constraint |
| InventoryController.DeleteInventoryHandler | backend/controllers/inventoryController.js:92-99 | 404 "Inventory not found" exactly for an unknown id; otherwise 200 "Inventory deleted successfully" and that record is removed |
| InventoryController.DeleteRemovesExactlyOne | backend/controllers/inventoryController.js:98 | deleting removes exactly one record and keeps every other, in order |
| InventoryController.DeleteInventoryHandlerValid | backend/controllers/inventoryController.js:92-103 | deleting keeps every table constraint |
| Migrations.Apply | backend/migrations/01-create-users.js:3-32 | `dropTable` always succeeds and leaves no index on the table; `createTable` always leaves the table in place; a successful `addIndex` changes exactly that one index; `removeIndex` always succeeds and removes that index if it is there |
| Migrations.RunAppend | backend/migrations/01-create-users.js:2-32 | running one list of calls after another is running their concatenation |
| Migrations.ColumnNamed | backend/migrations/02-crete-products.js:3-35 | looking a column up by name finds that column when there is one, and reports none only when no column has the name |
| Migrations.UsersUp | backend/migrations/01-create-users.js:2-24 | the users `up` yields the users table and its two unique indexes |
| Migrations.ProductsUp | backend/migrations/02-crete-products.js:2-46 | the products `up` adds the products table and its seller and category indexes |
| Migrations.InventoriesUp | backend/migrations/03-create-inventory.js:2-44 | the inventories `up` adds the inventories table and its unique productId index |
| Migrations.InventoriesDown | backend/migrations/03-create-inventory.js:46-55 | the inventories `down` gives back exactly the schema before its `up` |
| Migrations.ProductsDown | backend/migrations/02-crete-products.js:48-55 | the products `down` gives back exactly the schema before its `up` |
| Migrations.UsersDown | backend/migrations/01-create-users.js:26-33 | the users `down` gives back the empty schema |
| Migrations.UpThenDownIsEmpty | backend/migrations/01-create-users.js:2-33 | all three `up`s in order build the full schema, and the `down`s in reverse order take it back to nothing |
| Migrations.UpIsNotRepeatable | backend/migrations/01-create-users.js:19-20 | running the users `up` a second time fails, because its first index already exists |
| Migrations.DownRemovesIndexesFirst | backend/migrations/03-create-inventory.js:46-55 | each `down` removes exactly its own indexes, so the table it drops has none left |
| Migrations.TableReferences | backend/migrations/02-crete-products.js:18-24 | users has no foreign key; products references users.id and inventories references products.id, both cascading on update and delete |
| Migrations.ReferencesResolve | backend/migrations/03-create-inventory.js:10-16 | every foreign key of the full schema names an existing table and column |
| Migrations.IndexesCovered | backend/migrations/02-crete-products.js:38-45 | every index of the full schema names an existing table and columns |
| Migrations.FullSchemaWellFormed | backend/migrations/03-create-inventory.js:2-44 | after all `up` migrations every foreign key and every index resolves |
| Migrations.SchemaAgreesWithModels | backend/models/inventoryModel.js:9-37 | the tables back the models: username, email and productId are uniquely indexed, the category ENUM holds exactly the model's five names, and the count defaults are 0 and 10 |
| Migrations.AllColumnsNotNull | backend/migrations/01-create-users.js:3-16 | every column of the three tables is declared NOT NULL |
| Routes.SegmentsOfJoin | backend/routes/protectedRouter.js:79-366 | the router reads the segments back from a built path, with or without one trailing slash |
| Routes.FirstRoute | backend/routes/protectedRouter.js:79-366 | the router's choice is a registration that matches the method and path, and there is none exactly when no registration matches |
| Routes.FirstRouteIs | backend/routes/protectedRouter.js:79-366 | a matching registration with no match before it is the one that handles the request |
| Routes.WithoutNonMatching | backend/routes/protectedRouter.js:79-366 | removing a registration that does not match a request changes nothing for that request |
| Routes.DuplicateIsShadowed | backend/routes/protectedRouter.js:179-181 | a registration repeated later is never chosen: removing the later copy changes no dispatch |
| Routes.Params | backend/routes/protectedRouter.js:105-366 | `req.params` holds exactly the names of the route's `:name` segments |
| Routes.SecondDeleteIsDead | backend/routes/protectedRouter.js:179-181 | the product delete route is registered twice and the second copy is dead: dropping it changes no dispatch |
| Routes.AuthTableGuarded | backend/routes/authRouter.js:37-94 | in the auth router only register and login skip `protect`; the profile route runs it |
| Routes.ProtectedTableGuarded | backend/routes/protectedRouter.js:79-366 | every registration of the `/api` router runs `protect` and nothing else before its handler |
| Routes.AppRoute | backend/app.js:24-25 | a routed request starts with `/api`; each route found runs `protect` exactly when its handler is not register or login, and those two are reached only under `/api/auth` with no parameters |
| Routes.Handle | backend/app.js:24-25 | an unmatched request gets Express's 404; a handler is invoked without a user exactly when it is register or login; a guarded route answers 401 unless `protect` lets it through, and then the handler gets `protect`'s user |
| Routes.NoTokenNoHandler | backend/routes/protectedRouter.js:79-366 | without a bearer header every route but register and login answers 401 "No token provided" |
| Routes.ProfileRouteAnswers | backend/routes/authRouter.js:94 | `GET /api/auth/me` either gets `protect`'s 401 or reaches `getProfile` with a user, so its 404 branch is never taken |
| ModelRegistry.Get | backend/models/index.js:51-52 | reading a key an object does not have gives undefined |
| ModelRegistry.GetAt | backend/models/index.js:50-54 | in an object with distinct keys each entry is what its own key reads |
| ModelRegistry.Assign | backend/models/index.js:51-57 | `obj[k] = v` makes k read v and leaves every other key's value alone; a new key goes last and an existing one keeps its place |
| ModelRegistry.IndexOf | backend/models/index.js:33 | `indexOf` gives the first position of the character, or -1 exactly when it does not occur |
| ModelRegistry.ModelFileByStem | backend/models/index.js:31-38 | a file `<stem>.js` is loaded exactly when it does not start with '.', is not the index file itself and does not end in `.test.js` |
| ModelRegistry.OnlyJavaScriptFiles | backend/models/index.js:31-38 | every file loaded ends in `.js` and does not start with '.' |
| ModelRegistry.Exported | backend/models/index.js:46 | a truthy default export is used; otherwise the whole module namespace is |
| ModelRegistry.RegisterOne | backend/models/index.js:55-58 | a value with a truthy name is stored under that name, and nothing else changes; a value without one changes nothing |
| ModelRegistry.AssignKeepsNamed | backend/models/index.js:51-57 | storing a model under its own name keeps the registry's invariant: distinct keys, each naming the model stored under it |
| ModelRegistry.RegisterEach | backend/models/index.js:50-54 | registering each named export keeps the registry's invariant |
| ModelRegistry.Register | backend/models/index.js:49-58 | an object without a name has its named entries registered; a single model with a name is stored under it; anything else changes nothing |
| ModelRegistry.ImportOne | backend/models/index.js:42-61 | a module that fails to import is logged and changes nothing |
| ModelRegistry.ImportAll | backend/models/index.js:41-62 | the import loop keeps the registry's invariant |
| ModelRegistry.FailedImportsSkipped | backend/models/index.js:59-61 | the result is as if the files that fail to import were not in the directory |
| ModelRegistry.ImportAllDependsOnFiles | backend/models/index.js:41-62 | only what the listed files export matters |
| ModelRegistry.InitializeModels | backend/models/index.js:30-75 | the result has `sequelize` and `Sequelize` set, every other key as the model files registered it, and `associate` has run once for exactly the registered models that have one |
| ModelRegistry.Models | backend/models/index.js:31-62 | the models registered from the directory keep the registry's invariant |
| ModelRegistry.AssociateOnce | backend/models/index.js:65-69 | each registered model with `associate` gets exactly one call, and no other model gets one |
| ModelRegistry.SingleModelRegistered | backend/models/index.js:55-58 | a model file whose default export is a named model registers that model under its name |
| ApiClient.AuthorizationHeader | frontend/src/services/api.js:13-20 | a request carries `Authorization: Bearer <token>` exactly when the stored token is truthy, and then with that token |
| ApiClient.HeaderCarriesStoredToken | frontend/src/services/api.js:13-20 | the header the client sends passes the server's Bearer test exactly when a token is stored, and the server reads back the very token stored |
| ApiClient.OnResponseError | frontend/src/services/api.js:27-37 | a 401 removes exactly `token` and `user` from storage and sends the browser to `/`; any other failure changes nothing |
| ApiClient.LoggedOutAfter401 | frontend/src/services/api.js:13-37 | after a 401 the next request goes out without a token, and a second 401 changes nothing more |
| ApiClient.UrlIsJoined | frontend/src/services/api.js:40-56 | each builder's URL, below `/api`, is the path of the call's segments |
| ApiClient.ReachesIntended | frontend/src/services/api.js:40-56 | every call of `productAPI` and `inventoryAPI` reaches, through `protect`, the handler it is meant for, with the id as `req.params.id` when the call has one |
| ApiClient.ReachesProductRoute | frontend/src/services/api.js:40-47 | each `productAPI` call reaches its handler among the product registrations |
| ApiClient.ReachesInventoryRoute | frontend/src/services/api.js:50-56 | each `inventoryAPI` call reaches its handler among the inventory registrations |
| ApiClient.CallsReachIntendedHandler | frontend/src/services/api.js:40-56 | a call with a plain id, sent to the URL its builder forms, is served by the intended handler with that id |
| ApiClient.ProtectedDispatch | backend/app.js:24-25 | a path under `/api` whose next segment is not `auth` in any letter case is served by the `/api` router's first matching registration |
| ApiClient.NotAProductPath | backend/routes/protectedRouter.js:79-199 | a path whose first segment is not `products` in any letter case matches none of the product registrations |
| ClientData.PropOr | frontend/src/components/LowStockAlerts.jsx:18 | `data.prop || data` picks the property when it is truthy and the data itself otherwise |
| ClientData.ArrayOrEmpty | frontend/src/components/LowStockAlerts.jsx:23-25 | an array is kept and anything else becomes the empty list |
| ClientData.ProductsOf | frontend/src/components/Products.jsx:33-40 | a bare array is the list, else the `products` array of a page object, else nothing |
| ClientData.ProductName | frontend/src/components/LowStockAlerts.jsx:38-40 | the joined `productDetails` name when non-empty, else the `Product` name when non-empty, else "Unknown Product"; never empty |
| ClientData.ProductCategory | frontend/src/components/LowStockAlerts.jsx:42-44 | the `productDetails` category when non-empty, else the `Product` one, else "Unknown"; never empty |
| ClientData.ProductPrice | frontend/src/components/LowStockAlerts.jsx:46-48 | the `productDetails` price when non-zero, else the `Product` price, else 0 |
| ClientData.EmptyTermMatches | frontend/src/components/Products.jsx:110-115 | the empty search term matches every product |
| ClientData.OwnNameMatches | frontend/src/components/Products.jsx:110-115 | a product always matches a search for its own name, in any letter case |
| ClientData.TermCaseIgnored | frontend/src/components/Products.jsx:110-115 | lower-casing the search term does not change what matches |
| ClientData.ParseFormInt | frontend/src/components/Inventory.jsx:81-82 | a number copied into the form reads back unchanged through `parseInt`; typed text is parsed as `parseInt` does |
| LowStockAlerts.LoadAlerts | frontend/src/components/LowStockAlerts.jsx:13-36 | a failed request keeps the alerts and shows "Failed to load alerts"; a successful one clears the error and keeps exactly the records with quantity at or below their restock value, in their order and each as often as it appears, or nothing when the data is not an array |
| LowStockAlerts.UrgencyLevel | frontend/src/components/LowStockAlerts.jsx:50-54 | Critical exactly when the quantity is 0; High exactly when it is non-zero and at most half the restock value; Medium otherwise |
| LowStockAlerts.StockStatus | frontend/src/components/LowStockAlerts.jsx:56-60 | "Out of Stock" exactly when the quantity is 0; "Low Stock" exactly when non-zero and at most the restock value; "Below Threshold" otherwise |
| LowStockAlerts.AlertsNeverBelowThreshold | frontend/src/components/LowStockAlerts.jsx:23-25 | every row the page shows is an alert, so none is ever labelled "Below Threshold" |
| LowStockAlerts.ActionAgreesWithUrgency | frontend/src/components/LowStockAlerts.jsx:233-245 | the action column, which repeats the urgency tests inline, always calls for the action of the row's urgency badge |
| LowStockAlerts.SummaryPartitions | frontend/src/components/LowStockAlerts.jsx:116-151 | for alert rows the Out of Stock, Critical Low and Low Stock cards add up to the Total Alerts card |
| LowStockAlerts.SummaryMatchesUrgency | frontend/src/components/LowStockAlerts.jsx:116-140 | the three cards count exactly the Critical, High and Medium badges of the table |
| Dashboard.InventoryStats | frontend/src/components/Dashboard.jsx:36-47 | "Low Stock" counts the records with a positive quantity at or below their restock value, "Out of Stock" those with quantity 0, and the two together never exceed the number of records |
| Dashboard.LoadStatsAsWritten | frontend/src/components/Dashboard.jsx:19-54 | if either request fails the counters stay as they were; otherwise "Total Products" is the length of the product list received |
| Dashboard.ProductCount | frontend/src/components/Dashboard.jsx:35-44 | a page object's non-negative `total` when there is one, else the length of the product list |
| Dashboard.LoadStats | frontend/src/components/Dashboard.jsx:19-54 | the corrected load: as written, except that "Total Products" is the page's `total` |
| Dashboard.TotalProductsCappedAtPage | frontend/src/components/Dashboard.jsx:44 | as written, against the real `getMyProducts`, "Total Products" is `min(owned, 10)`: a seller with more than 10 products is under-counted |
| Dashboard.TotalProductsCountsAll | frontend/src/components/Dashboard.jsx:44 | with the page's `total`, "Total Products" is the number of products the seller owns |
| Dashboard.CountersMatchAlerts | frontend/src/components/Dashboard.jsx:38-39 | for non-negative counts, the dashboard's low-stock and out-of-stock counters add up to the number of rows the alerts page lists |
| Dashboard.OutOfStockMatchesAlertsCard | frontend/src/components/Dashboard.jsx:39 | the dashboard's out-of-stock counter equals the alerts page's Out of Stock card |
| InventoryPage.QueryParams | frontend/src/components/Inventory.jsx:32-36 | a range filter is sent as a query parameter exactly when its text is non-empty, and then with that text |
| InventoryPage.SearchStaysLocal | frontend/src/components/Inventory.jsx:32-38 | the search box is not sent: changing it leaves the request's parameters unchanged |
| InventoryPage.FilteredInventory | frontend/src/components/Inventory.jsx:138-145 | the empty search shows every record in order; otherwise a record is shown exactly when its joined product's name or category contains the search, ignoring case |
| InventoryPage.UnjoinedNeedsEmptySearch | frontend/src/components/Inventory.jsx:139-142 | a record without a joined product is shown exactly when the search is empty |
| InventoryPage.SearchIgnoresCase | frontend/src/components/Inventory.jsx:140-142 | searching for `Abc` and for `abc` shows the same records |
| InventoryPage.HighlightedRowsAreAlerts | frontend/src/components/Inventory.jsx:159-161 | the rows the table highlights as low are exactly, and in the same order, the records the alerts page lists |
| InventoryPage.EditProductId | frontend/src/components/Inventory.jsx:105 | the form's product id is the record's `productId`, else the `Product` id, else the `productDetails` id, and empty only when all three are |
| InventoryPage.HandleEdit | frontend/src/components/Inventory.jsx:101-110 | editing shows the form for that record, with its product id and both counts, which read back unchanged |
| InventoryPage.NumberField | frontend/src/components/Inventory.jsx:81-82 | a field that `parseInt` cannot read is sent as `null` (JSON's rendering of `NaN`), any other as its number |
| InventoryPage.Submit | frontend/src/components/Inventory.jsx:75-89 | editing a record sends its id and the two parsed counts to `update`; otherwise `create` gets the product id and the two parsed counts |
| InventoryPage.SubmitCall | frontend/src/components/Inventory.jsx:85-89 | an update submission goes to `inventoryAPI.update` with the record's id, a new one to `inventoryAPI.create` |
| InventoryPage.UntouchedEditWritesBack | frontend/src/components/Inventory.jsx:75-110 | saving an edit form nobody touched writes the record's own counts back to it |
| InventoryPage.ResetThenSubmitCreates | frontend/src/components/Inventory.jsx:128-136 | after a reset a submit creates a record with an empty product id and both counts `null` |
| ProductsPage.LoadProducts | frontend/src/components/Products.jsx:24-50 | a failed request empties the list and shows "Failed to load products"; a successful one clears the error and keeps the bare array, else the page object's `products`, else nothing |
| ProductsPage.PageObjectYieldsItsList | frontend/src/components/Products.jsx:33-40 | a page object from `getMine` yields exactly its list whatever its `total` says, a bare array itself, and an object without a list nothing |
| ProductsPage.FilteredProducts | frontend/src/components/Products.jsx:110-115 | a product is shown exactly when its name or category contains the search term, ignoring case |
| ProductsPage.EmptySearchShowsAll | frontend/src/components/Products.jsx:110-115 | the empty search shows every product, in order |
| ProductsPage.SearchIgnoresCase | frontend/src/components/Products.jsx:110-115 | searching for `Abc` and for `abc` shows the same products |
| ProductsPage.HandleEdit | frontend/src/components/Products.jsx:72-81 | editing shows the form for that product with its name, description and category, and its price as the product's own number |
| ProductsPage.Submit | frontend/src/components/Products.jsx:52-60 | the form goes to `update` with the edited product's id, or to `create` when nothing is being edited |
| ProductsPage.UntouchedEditWritesBack | frontend/src/components/Products.jsx:52-81 | saving an edit form nobody touched sends the product's own attributes back to its URL |
| ProductsPage.ResetThenSubmitCreates | frontend/src/components/Products.jsx:52-108 | after a reset a submit calls `create` with four empty text fields, sent as they are |
| AppShell.PagePath | frontend/src/App.jsx:47-50 | every page path starts with '/', and it is `/` exactly for the dashboard |
| AppShell.CurrentPage | frontend/src/App.jsx:37-43 | the corrected `getCurrentPage`: the page the router renders, or the dashboard for a redirect |
| AppShell.NavigationRoundTrip | frontend/src/App.jsx:37-77 | navigating to a page renders it and highlights its sidebar entry: the path round-trips to the page, as written and corrected |
| AppShell.UnknownPathLandsOnDashboard | frontend/src/App.jsx:72-76 | an unknown path redirects to `/`, which renders and highlights the dashboard |
| AppShell.TrailingSlashMisleadsHighlight | frontend/src/App.jsx:37-73 | `/products/` and `/products//` render the products page; as written `/products/` highlights the dashboard, the corrected reading highlights products |
| AppShell.Content | frontend/src/App.jsx:20-87 | the loading message exactly while the session loads; the application exactly for a signed-in user, showing the routed screen and highlighting what the exact-comparison `getCurrentPage` returns; otherwise the login form exactly when `isLogin` |
| AppShell.ContentIntended | frontend/src/App.jsx:20-87 | the corrected shell: the same view as `Content` except that a signed-in user's highlight is the page the router renders |
| AppShell.ContentsAgreeOnPagePaths | frontend/src/App.jsx:37-77 | on every path the application navigates to, the shell as written and the corrected one are the same |
| AppShell.ShellMisleadsAtTrailingSlash | frontend/src/App.jsx:37-77 | signed in at `/products/`, the shell as written shows the products page under a dashboard highlight, the corrected one under a products highlight |
| AppShell.HighlightMatchesScreen | frontend/src/App.jsx:37-77 | in the corrected shell the highlighted entry always names the page on screen |
| RegisterForm.InitialComplete | frontend/src/components/RegisterForm.jsx:5-12 | the form starts with all six inputs, each empty |
| RegisterForm.HandleChange | frontend/src/components/RegisterForm.jsx:18-23 | the named input takes the new value and every other input keeps its own |
| RegisterForm.UserData | frontend/src/components/RegisterForm.jsx:36 | the data sent is every input except the confirmation, each with its value |
| RegisterForm.HandleSubmit | frontend/src/components/RegisterForm.jsx:25-44 | `register` is called exactly when the two passwords agree, with the five other inputs; a mismatch shows "Passwords do not match"; a failed registration shows its error; the spinner is off at the end |
| RegisterForm.RegisterGetsFiveFields | frontend/src/components/RegisterForm.jsx:30-37 | with agreeing passwords `register` receives exactly first name, last name, username, email and password |
| RegisterForm.ConfirmingUnblocksSubmit | frontend/src/components/RegisterForm.jsx:18-37 | typing the password again into the confirmation input lets the submit through with the form's data |

## Left out

- Runtime failures of the database (a lost connection, a failed query) are not modelled, except
  where a handler's own catch block decides the answer. `protect`'s failed user lookup is a
  parameter, `storeFails`.
- The listing routes read `limit` and `offset` as `Number(...)` of the query string. The model
  takes them as natural numbers: a non-numeric or negative value (a `NaN` limit) is not modelled.
- URL percent-decoding, query-string parsing and Express's handling of repeated slashes are not
  modelled. Paths are sequences of plain segments.
- The `/api/docs` Swagger UI route, CORS, `express.json()` and `app.listen` are left out: they
  are I/O or third-party middleware.
- Lower-casing is ASCII only. JavaScript's Unicode case mapping is not modelled.
- A `null` response body in the browser is not modelled. Neither is a record whose `name` or
  `category` is not a string. `NameOf` in the model registry treats a non-string name as missing.
- The Inventory page stores `response.data.inventories || response.data` without checking it is
  an array. A non-array then makes its render throw. The model keeps only the array case.
- The range filters the Inventory page sends (`quantityMin` and the rest) are modelled as query
  parameters. `getAllInventories` ignores them, so they change nothing on the server.
- A module namespace with two entries of the same key cannot occur in JavaScript and is not
  modelled.
- `window.confirm` and both `handleDelete` functions are not modelled: they only call `delete`
  and reload. The `loading` flags and every console message are left out too.
- The authentication context (`useAuth`) is not part of this model: `register` is a parameter of
  `RegisterForm.HandleSubmit`. `LoginForm`, `Navigation` and `Sidebar` are presentation.
- `price` is DECIMAL(10, 2); the model counts whole cents. The string-to-decimal coercion a
  price goes through on the way in is not modelled.
- Seeders, the Sequelize configuration and the test files are not part of this model.
- GetAllInventories: promises no order for the rows. The query has no ORDER BY, so SQLite may
  return them in any order; the model happens to list them in table order.
- Dashboard.CountersMatchAlerts: requires non-negative counts. With a negative quantity, the
  dashboard's two counters and the alerts page disagree, which the inventory constraints already
  rule out.
- LowStockAlerts.AlertsNeverBelowThreshold: stated for a page whose earlier alerts were all
  alerts. That holds from the initial empty page on, because a failed load keeps the old alerts.
- ModelRegistry.Assign: keeps every key in insertion order. JavaScript enumerates integer-like
  keys such as `"7"` first, in numeric order; the registry's keys are model names
  (`User`, `Product`, `Inventory`), none of which is integer-like.
- UserModel.Validate: the `notEmpty` test treats only ASCII whitespace (space, tab, line feed,
  vertical tab, form feed, carriage return) as blank. JavaScript's `\s` also covers Unicode spaces
  such as U+00A0, so a username made only of those is accepted here and refused by the source.
- AuthController.Register: the `error` field carries which rule failed as a `UserError`, not the
  text of Sequelize's `err.message`, whose wording comes from a library that is not part of this
  model.
- ApiClient.CallsReachIntendedHandler: holds for a base URL of `/api`. The client's base URL is
  `VITE_API_URL` from the build environment; the model fixes it to `/api`, the prefix the server
  mounts its routers under.
- Request bodies are typed: a field is absent, `null` or a value of its column's type. A JSON
  number where a string is expected (a numeric username) or a string where a number is expected
  (a quoted quantity) goes through type coercion in Sequelize and is not modelled.
- LowStockAlerts.SummaryPartitions: stated for alert rows with a non-negative quantity. A
  negative quantity falls into no card.

## Findings

| source | as written | input that shows it | evidently intended | confidence | as-written member | corrected member |
|---|---|---|---|---|---|---|
| frontend/src/components/Dashboard.jsx:44 | "Total Products" is the length of the product list `getMine()` returns. That is one page of `getMyProducts`, at most 10 rows by default | a seller who owns 11 products sees "Total Products: 10" | the page's `total`, the number of products the seller owns | not executed | Dashboard.TotalProductsCappedAtPage | Dashboard.TotalProductsCountsAll |
| frontend/src/App.jsx:37-43 | `getCurrentPage` compares the raw path with three literals. The router matches without regard to letter case or trailing slashes | the path `/products/` renders the products page while the sidebar highlights the dashboard | the highlighted entry names the page the router renders | not executed | AppShell.ShellMisleadsAtTrailingSlash | AppShell.HighlightMatchesScreen |

