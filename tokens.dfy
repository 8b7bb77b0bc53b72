// The refresh_tokens and password_reset_tokens tables. Both hold rows of
// the same shape; they differ in how a row is created: a refresh token is
// a plain insert, a reset token first clears the user's earlier ones.

module TokenRepository {
  import opened Common
  import opened Users

  /** The first row holding `token`, if any. */
  function FindToken(rows: seq<Token>, token: string): (r: Option<Token>)
    ensures r.Some? ==> r.value in rows && r.value.token == token
    ensures r.None? <==> forall k :: 0 <= k < |rows| ==> rows[k].token != token
  {
    if |rows| == 0 then None else if rows[0].token == token then Some(rows[0]) else FindToken(rows[1..], token)
  }

  /** `DELETE ... WHERE token = token`. */
  function WithoutToken(rows: seq<Token>, token: string): seq<Token>
  {
    if |rows| == 0 then []
    else
      var head := if rows[0].token == token then [] else [rows[0]];
      head + WithoutToken(rows[1..], token)
  }

  /** `DELETE ... WHERE user_id = userID`. */
  function WithoutUser(rows: seq<Token>, userID: int): seq<Token>
  {
    if |rows| == 0 then []
    else
      var head := if rows[0].userID == userID then [] else [rows[0]];
      head + WithoutUser(rows[1..], userID)
  }

  /** Deleting by token removes exactly the rows with that token. */
  lemma {:induction false} WithoutTokenEffect(rows: seq<Token>, token: string, x: Token)
    ensures x in WithoutToken(rows, token) <==> x in rows && x.token != token
  {
    if |rows| > 0 {
      WithoutTokenEffect(rows[1..], token, x);
      assert rows == [rows[0]] + rows[1..];
    }
  }

  /** Deleting by user removes exactly that user's rows. */
  lemma {:induction false} WithoutUserEffect(rows: seq<Token>, userID: int, x: Token)
    ensures x in WithoutUser(rows, userID) <==> x in rows && x.userID != userID
  {
    if |rows| > 0 {
      WithoutUserEffect(rows[1..], userID, x);
      assert rows == [rows[0]] + rows[1..];
    }
  }

  /** After deleting by token no row holds the token, so looking it up
      fails. */
  lemma TokenGone(rows: seq<Token>, token: string)
    ensures FindToken(WithoutToken(rows, token), token).None?
  {
    var rest := WithoutToken(rows, token);
    forall k | 0 <= k < |rest|
      ensures rest[k].token != token
    {
      WithoutTokenEffect(rows, token, rest[k]);
    }
  }

  /** After deleting by user no row belongs to the user. */
  lemma UserGone(rows: seq<Token>, userID: int)
    ensures forall k :: 0 <= k < |WithoutUser(rows, userID)| ==> WithoutUser(rows, userID)[k].userID != userID
  {
    var rest := WithoutUser(rows, userID);
    forall k | 0 <= k < |rest|
      ensures rest[k].userID != userID
    {
      WithoutUserEffect(rows, userID, rest[k]);
    }
  }

  /** Each user holds at most one row. */
  predicate AtMostOnePerUser(rows: seq<Token>)
  {
    forall i, j :: 0 <= i < j < |rows| ==> rows[i].userID != rows[j].userID
  }

  /** Removing rows keeps at most one per user. */
  lemma {:induction false} WithoutTokenKeepsOne(rows: seq<Token>, token: string)
    requires AtMostOnePerUser(rows)
    ensures AtMostOnePerUser(WithoutToken(rows, token))
  {
    if |rows| > 0 {
      WithoutTokenKeepsOne(rows[1..], token);
      forall x | x in WithoutToken(rows[1..], token)
        ensures x.userID != rows[0].userID
      {
        WithoutTokenEffect(rows[1..], token, x);
      }
    }
  }

  lemma {:induction false} WithoutUserKeepsOne(rows: seq<Token>, userID: int)
    requires AtMostOnePerUser(rows)
    ensures AtMostOnePerUser(WithoutUser(rows, userID))
  {
    if |rows| > 0 {
      WithoutUserKeepsOne(rows[1..], userID);
      forall x | x in WithoutUser(rows[1..], userID)
        ensures x.userID != rows[0].userID
      {
        WithoutUserEffect(rows[1..], userID, x);
      }
    }
  }

  /** The refresh_tokens table. */
  class RefreshTokenStore {
    var rows: seq<Token>
    var nextID: int

    constructor ()
      ensures rows == [] && nextID == 1
    {
      rows, nextID := [], 1;
    }

    /** Create: stores the token under the next id. */
    method Create(token: Token) returns (id: int)
      modifies this
      ensures id == old(nextID) && nextID == id + 1
      ensures rows == old(rows) + [token.(id := id)]
    {
      id := nextID;
      rows := rows + [token.(id := id)];
      nextID := nextID + 1;
    }

    /** GetByToken: the row with that token, or "refresh токен не найден". */
    method GetByToken(token: string) returns (r: Result<Token>)
      ensures r.Success? <==> FindToken(rows, token).Some?
      ensures r.Success? ==> r.value == FindToken(rows, token).value
      ensures r.Failure? ==> r.msg == "refresh токен не найден"
    {
      var found := FindToken(rows, token);
      if found.None? {
        return Failure("refresh токен не найден");
      }
      return Success(found.value);
    }

    /** DeleteByToken: removes the rows with that token; none is fine. */
    method DeleteByToken(token: string)
      modifies this
      ensures rows == WithoutToken(old(rows), token) && nextID == old(nextID)
      ensures FindToken(rows, token).None?
    {
      TokenGone(rows, token);
      rows := WithoutToken(rows, token);
    }

    /** DeleteByUserID: removes every token of the user. */
    method DeleteByUserID(userID: int)
      modifies this
      ensures rows == WithoutUser(old(rows), userID) && nextID == old(nextID)
      ensures forall k :: 0 <= k < |rows| ==> rows[k].userID != userID
    {
      UserGone(rows, userID);
      rows := WithoutUser(rows, userID);
    }
  }

  /** Which statement of the password-reset Create fails, if any. */
  datatype ResetFailure = NoFailure | DeleteFails | InsertFails

  /** The password_reset_tokens table: at most one token per user. */
  class PasswordResetStore {
    var rows: seq<Token>
    var nextID: int

    predicate Valid()
      reads this
    {
      AtMostOnePerUser(rows)
    }

    constructor ()
      ensures Valid() && rows == [] && nextID == 1
    {
      rows, nextID := [], 1;
    }

    /** Create: deletes the user's tokens, then inserts the new one. A
        failed delete inserts nothing; a failed insert comes after the
        delete, which stays done. */
    method Create(token: Token, failure: ResetFailure) returns (r: Result<int>)
      requires Valid()
      modifies this
      ensures Valid()
      ensures r.Success? <==> failure == NoFailure
      ensures failure == DeleteFails ==>
        rows == old(rows) && nextID == old(nextID) && r == Failure("ошибка при удалении существующих токенов")
      ensures failure == InsertFails ==>
        rows == WithoutUser(old(rows), token.userID) && nextID == old(nextID)
      ensures failure == InsertFails ==> r == Failure("ошибка при создании токена сброса пароля")
      ensures r.Success? ==> r.value == old(nextID) && nextID == old(nextID) + 1
      ensures r.Success? ==> rows == WithoutUser(old(rows), token.userID) + [token.(id := r.value)]
    {
      if failure == DeleteFails {
        return Failure("ошибка при удалении существующих токенов");
      }
      var before := rows;
      WithoutUserKeepsOne(before, token.userID);
      UserGone(before, token.userID);
      rows := WithoutUser(before, token.userID);
      if failure == InsertFails {
        return Failure("ошибка при создании токена сброса пароля");
      }
      var id := nextID;
      rows := rows + [token.(id := id)];
      nextID := nextID + 1;
      return Success(id);
    }

    /** GetByToken: the row with that token, or "токен сброса пароля не найден". */
    method GetByToken(token: string) returns (r: Result<Token>)
      ensures r.Success? <==> FindToken(rows, token).Some?
      ensures r.Success? ==> r.value == FindToken(rows, token).value
      ensures r.Failure? ==> r.msg == "токен сброса пароля не найден"
    {
      var found := FindToken(rows, token);
      if found.None? {
        return Failure("токен сброса пароля не найден");
      }
      return Success(found.value);
    }

    method DeleteByToken(token: string)
      requires Valid()
      modifies this
      ensures Valid()
      ensures rows == WithoutToken(old(rows), token) && nextID == old(nextID)
      ensures FindToken(rows, token).None?
    {
      WithoutTokenKeepsOne(rows, token);
      TokenGone(rows, token);
      rows := WithoutToken(rows, token);
    }

    method DeleteByUserID(userID: int)
      requires Valid()
      modifies this
      ensures Valid()
      ensures rows == WithoutUser(old(rows), userID) && nextID == old(nextID)
      ensures forall k :: 0 <= k < |rows| ==> rows[k].userID != userID
    {
      WithoutUserKeepsOne(rows, userID);
      UserGone(rows, userID);
      rows := WithoutUser(rows, userID);
    }
  }
}
