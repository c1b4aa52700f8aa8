/** The registry of device push tokens: a table of token strings, appended to
    when a device registers and deduplicated by value. */
module FcmTokens {
  import opened Db

  datatype TokenDoc = TokenDoc(token: string)

  function TokenOf(d: TokenDoc): string {
    d.token
  }

  /** Every stored token, in registration order. */
  function Tokens(t: Table<TokenDoc>): seq<string> {
    seq(|t.rows|, i requires 0 <= i < |t.rows| => t.rows[i].doc.token)
  }

  /** `getTokens`: all token documents, in registration order. */
  function GetTokens(t: Table<TokenDoc>): (r: seq<Row<TokenDoc>>)
    ensures forall x :: x in r <==> x in t.rows
    ensures |r| == |t.rows|
  {
    t.rows
  }

  /** `saveToken`: a token already stored yields the id of its earliest
      document and changes nothing; a new token is appended under a fresh id. */
  function SaveToken(t: Table<TokenDoc>, token: string): (r: Stored<TokenDoc>)
    ensures token in Tokens(t) ==>
      && r.table == t
      && (exists i :: 0 <= i < |t.rows| && t.rows[i].doc.token == token && r.id == t.rows[i].id
                    && forall j :: 0 <= j < i ==> t.rows[j].doc.token != token)
    ensures token !in Tokens(t) ==>
      && Tokens(r.table) == Tokens(t) + [token]
      && r.table.rows == t.rows + [Row(r.id, TokenDoc(token))]
      && (Valid(t) ==> !HasId(t, r.id))
    ensures Valid(t) ==> Valid(r.table)
  {
    var r := InsertIfAbsent(t, TokenOf, TokenDoc(token));
    if token !in Tokens(t) then
      assert forall i :: 0 <= i < |t.rows| ==> TokenOf(t.rows[i].doc) != TokenOf(TokenDoc(token)) by {
        forall i | 0 <= i < |t.rows|
          ensures TokenOf(t.rows[i].doc) != token
        {
          assert Tokens(t)[i] == t.rows[i].doc.token;
        }
      }
      assert r.table.rows == r.table.rows[..|t.rows|] + [r.table.rows[|t.rows|]];
      assert Tokens(r.table) == Tokens(t) + [token];
      r
    else
      var k :| 0 <= k < |t.rows| && Tokens(t)[k] == token;
      assert TokenOf(t.rows[k].doc) == TokenOf(TokenDoc(token));
      r
  }

  /** Saving the same token twice gives the same table and id as saving it once. */
  lemma SaveTokenIdempotent(t: Table<TokenDoc>, token: string)
    ensures SaveToken(SaveToken(t, token).table, token) == SaveToken(t, token)
  {
    InsertIfAbsentIdempotent(t, TokenOf, TokenDoc(token));
  }

  /** Stored tokens that are pairwise distinct stay pairwise distinct. */
  lemma SaveTokenKeepsTokensDistinct(t: Table<TokenDoc>, token: string)
    requires UniqueBy(t.rows, TokenOf)
    ensures UniqueBy(SaveToken(t, token).table.rows, TokenOf)
  {
    InsertIfAbsentKeepsUnique(t, TokenOf, TokenDoc(token));
  }

  /** After a save the token is among those `getTokens` returns, and every
      document stored before is still there, unchanged and in place. */
  lemma SaveTokenRetains(t: Table<TokenDoc>, token: string)
    ensures exists x :: x in GetTokens(SaveToken(t, token).table) && x.doc.token == token
    ensures GetTokens(t) <= GetTokens(SaveToken(t, token).table)
  {
    var r := SaveToken(t, token);
    if token in Tokens(t) {
      var i :| 0 <= i < |t.rows| && t.rows[i].doc.token == token;
      assert t.rows[i] in GetTokens(r.table);
    } else {
      assert r.table.rows[|t.rows|] in GetTokens(r.table);
    }
  }
}
