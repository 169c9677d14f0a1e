/**
 * The user routes up to the point where they hand a command to the `users`
 * collection: which command each request issues, the documents it builds,
 * and the response it sends. Password hashing (on strings only: bcrypt
 * refuses anything else), the clock and the driver's
 * ObjectId check are foreign calls and enter as parameters; the one
 * `isValidObjectId` stands both for `ObjectId.isValid` and for whether the
 * `ObjectId` constructor accepts a string.
 */
module UsersRoutes {
  import opened JsValues

  /** What a route asks of the `users` collection. */
  datatype Command =
    | FindOne(id: string)
    | InsertOne(doc: Object)
    | UpdateOne(id: string, update: Object)
    | DeleteOne(id: string)

  /** Why a route stops before reaching the store. */
  datatype Failure =
    /** `new Error(400, 'Invalid parameter')`: the first argument is the message, so it reads "400". */
    | InvalidId(message: string)
    /** `new ObjectId(id)` throws: the driver does not accept the id. */
    | MalformedObjectId
    /** The body has no `user`, so reading `user.passwordHash` throws. */
    | MissingUser
    /** `bcrypt.hashSync` throws "Illegal arguments": the value to hash is not a string. */
    | IllegalHashArgument

  datatype Outcome = Failed(failure: Failure) | Issued(command: Command)

  /** The `{ id }` object PUT and DELETE send back. */
  function IdResponse(id: string): (response: Object)
    ensures response.Keys == {"id"} && Get(response, "id") == Str(id)
  {
    map["id" := Str(id)]
  }

  /**
   * GET /users/:id: the id is checked against the `objectid` format first,
   * and only a valid id leads to a `findOne`.
   */
  function GetUserById(id: string, isValidObjectId: string -> bool): (r: Outcome)
    ensures r.Failed? <==> !isValidObjectId(id)
    ensures r.Failed? ==> r.failure == InvalidId("400")
    ensures r.Issued? ==> r.command == FindOne(id)
  {
    if !isValidObjectId(id) then Failed(InvalidId("400")) else Issued(FindOne(id))
  }

  /** The only keys an update document may carry. */
  const UpdateKeys: set<string> := {"username", "role", "email", "passwordHash", "updatedAt"}

  /** PUT hashes a truthy password, and bcrypt accepts only a string. */
  predicate PasswordRefused(body: Object)
  {
    Truthy(Get(body, "password")) && !Get(body, "password").Str?
  }

  /**
   * What PUT's `updateFields` holds for a request body: each of username,
   * role and email exactly when the body gives a truthy value for it, and
   * then that value; `passwordHash` exactly when the password is truthy, and
   * then its hash; always the update time; and no other key.
   */
  predicate UpdateFieldsFor(body: Object, hash: string -> string, now: string, u: Object)
  {
    && ("username" in u <==> Truthy(Get(body, "username")))
    && ("username" in u ==> u["username"] == Get(body, "username"))
    && ("role" in u <==> Truthy(Get(body, "role")))
    && ("role" in u ==> u["role"] == Get(body, "role"))
    && ("email" in u <==> Truthy(Get(body, "email")))
    && ("email" in u ==> u["email"] == Get(body, "email"))
    && ("passwordHash" in u <==> Truthy(Get(body, "password")))
    && ("passwordHash" in u ==> Get(body, "password").Str? && u["passwordHash"] == Str(hash(Get(body, "password").s)))
    && "updatedAt" in u && u["updatedAt"] == Str(now)
    && u.Keys <= UpdateKeys
  }

  /** The description above leaves no freedom: one body, hash and time give one update document. */
  lemma UpdateFieldsForUnique(body: Object, hash: string -> string, now: string, u: Object, v: Object)
    requires UpdateFieldsFor(body, hash, now, u) && UpdateFieldsFor(body, hash, now, v)
    ensures u == v
  {
  }

  /**
   * The PUT handler's `updateFields`, built one conditional assignment at a
   * time; `None` when hashing the password throws.
   */
  method BuildUpdateFields(body: Object, hash: string -> string, now: string) returns (updateFields: Option<Object>)
    ensures updateFields.None? <==> PasswordRefused(body)
    ensures updateFields.Some? ==> UpdateFieldsFor(body, hash, now, updateFields.value)
    ensures updateFields.Some? ==> "password" !in updateFields.value
  {
    var username, role, email, password := Get(body, "username"), Get(body, "role"), Get(body, "email"), Get(body, "password");
    var fields: Object := map[];
    if Truthy(username) {
      fields := fields["username" := username];
    }
    if Truthy(role) {
      fields := fields["role" := role];
    }
    if Truthy(email) {
      fields := fields["email" := email];
    }
    if Truthy(password) {
      if !password.Str? {
        return None;
      }
      fields := fields["passwordHash" := Str(hash(password.s))];
    }
    fields := fields["updatedAt" := Str(now)];
    updateFields := Some(fields);
  }

  /**
   * PUT /users/:id: the update document is built first, and a password bcrypt
   * refuses throws there. Then, inside the store callback, `new ObjectId(id)`
   * throws for an id the driver does not accept. Either way neither a command
   * nor a response goes out. Otherwise the update is `$set` on the user with
   * that id and the answer repeats the id.
   */
  method UpdateUser(id: string, body: Object, isValidObjectId: string -> bool, hash: string -> string, now: string)
    returns (r: Outcome, response: Option<Object>)
    ensures r.Failed? <==> PasswordRefused(body) || !isValidObjectId(id)
    ensures r.Failed? ==> response == None
    ensures r.Failed? ==> r.failure == (if PasswordRefused(body) then IllegalHashArgument else MalformedObjectId)
    ensures r.Issued? ==> r.command.UpdateOne? && r.command.id == id
    ensures r.Issued? ==> UpdateFieldsFor(body, hash, now, r.command.update) && "password" !in r.command.update
    ensures r.Issued? ==> response.Some? && Get(response.value, "id") == Str(id) && response.value.Keys == {"id"}
  {
    var updateFields := BuildUpdateFields(body, hash, now);
    if updateFields.None? {
      return Failed(IllegalHashArgument), None;
    }
    if !isValidObjectId(id) {
      return Failed(MalformedObjectId), None;
    }
    r := Issued(UpdateOne(id, updateFields.value));
    response := Some(IdResponse(id));
  }

  /**
   * DELETE /users/:id: as with PUT, an id the driver does not accept makes
   * `new ObjectId(id)` throw before any command; otherwise the user with that
   * id is deleted and the answer repeats the id.
   */
  function DeleteUser(id: string, isValidObjectId: string -> bool): (r: (Outcome, Option<Object>))
    ensures r.0.Failed? <==> !isValidObjectId(id)
    ensures r.0.Failed? ==> r.0.failure == MalformedObjectId && r.1 == None
    ensures r.0.Issued? ==> r.0.command == DeleteOne(id)
    ensures r.0.Issued? ==> r.1.Some? && Get(r.1.value, "id") == Str(id) && r.1.value.Keys == {"id"}
  {
    if !isValidObjectId(id) then (Failed(MalformedObjectId), None)
    else (Issued(DeleteOne(id)), Some(IdResponse(id)))
  }

  /** The `user` object of a POST body, which the handler changes in place before inserting it. */
  class User {
    var fields: Object

    constructor(fields: Object)
      ensures this.fields == fields
    {
      this.fields := fields;
    }
  }

  /**
   * POST /users: replace the submitted `passwordHash` by its hash, stamp
   * `createdAt` and `updatedAt` (two readings of the clock), and insert the
   * user; every other field is inserted as submitted. A `passwordHash` that
   * is not a string (missing included) makes bcrypt throw before anything
   * is changed.
   */
  method CreateUser(user: User?, hash: string -> string, createdAt: string, updatedAt: string) returns (r: Outcome)
    modifies user
    ensures user == null ==> r == Failed(MissingUser)
    ensures user != null && !Get(old(user.fields), "passwordHash").Str? ==>
              r == Failed(IllegalHashArgument) && user.fields == old(user.fields)
    ensures user != null && Get(old(user.fields), "passwordHash").Str? ==>
              && r == Issued(InsertOne(user.fields))
              && Get(user.fields, "passwordHash") == Str(hash(Get(old(user.fields), "passwordHash").s))
              && Get(user.fields, "createdAt") == Str(createdAt) && Get(user.fields, "updatedAt") == Str(updatedAt)
              && user.fields.Keys == old(user.fields).Keys + {"createdAt", "updatedAt"}
              && forall k :: k != "passwordHash" && k != "createdAt" && k != "updatedAt" ==>
                   Get(user.fields, k) == Get(old(user.fields), k)
  {
    if user == null {
      return Failed(MissingUser);
    }
    var password := Get(user.fields, "passwordHash");
    if !password.Str? {
      return Failed(IllegalHashArgument);
    }
    user.fields := user.fields["passwordHash" := Str(hash(password.s))];
    user.fields := user.fields["createdAt" := Str(createdAt)];
    user.fields := user.fields["updatedAt" := Str(updatedAt)];
    r := Issued(InsertOne(user.fields));
  }
}
