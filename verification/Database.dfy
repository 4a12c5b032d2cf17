/** The sensor table as the server's statements use it (DatabaseConnection), and the tokens that
    go into it. */
module Database {
  import opened Wire
  import opened Session
  import opened SessionInvariants

  /** A row of getAllSensors. */
  datatype Listed = Listed(id: int32, name: Text, ip: Text, port: int32, connected: bool)

  /** The rows that getAllSensors selects, each once, in some order. */
  ghost predicate Lists(rows: Rows, sensors: seq<Listed>) {
    && (forall i, j :: 0 <= i < j < |sensors| ==> sensors[i].id != sensors[j].id)
    && (forall s <- sensors :: s.id in rows && (rows[s.id].status == Active || rows[s.id].status == Inactive)
          && s == Listed(s.id, rows[s.id].name, rows[s.id].ip, rows[s.id].port, rows[s.id].status == Active))
    && (forall id <- rows :: rows[id].status == Active || rows[id].status == Inactive ==>
          exists s :: s in sensors && s.id == id)
  }

  class SensorTable {
    var rows: Rows
    var measurements: seq<Stored>

    ghost predicate Valid()
      reads this
    {
      TokensDistinct(rows)
    }

    constructor (rows: Rows)
      requires TokensDistinct(rows)
      ensures Valid() && this.rows == rows && measurements == []
    {
      this.rows, measurements := rows, [];
    }

    method CheckIfTokenExists(token: Text) returns (found: bool)
      ensures found <==> TokenExists(rows, token)
    {
      if id :| id in rows && rows[id].token == token {
        assert Names(rows, token, id);
        found := true;
      } else {
        found := false;
      }
    }

    /** None: the query finds no row, and reading its result throws. */
    method GetSensorId(token: Text) returns (id: Option<int32>)
      requires Valid()
      ensures id == if TokenExists(rows, token) then Some(SensorId(rows, token)) else None
    {
      if found :| found in rows && rows[found].token == token {
        assert Names(rows, token, found);
        id := Some(found);
      } else {
        id := None;
      }
    }

    method CheckIfTokenIsWhitelisted(token: Text) returns (whitelisted: Option<bool>)
      requires Valid()
      ensures whitelisted ==
        if TokenExists(rows, token) then Some(rows[SensorId(rows, token)].status != Revoked) else None
    {
      if found :| found in rows && rows[found].token == token {
        assert Names(rows, token, found);
        whitelisted := Some(rows[found].status != Revoked);
      } else {
        whitelisted := None;
      }
    }

    /** The update, then the row with this address and token. */
    method AddSensor(ip: Text, port: int32, token: Text) returns (id: Option<int32>)
      requires Valid()
      modifies this`rows
      ensures Valid() && rows == Activate(old(rows), ip, port, token)
      ensures TokenExists(old(rows), token) && old(rows[SensorId(rows, token)].status) != Revoked ==>
        id == Some(SensorId(old(rows), token))
    {
      ghost var before := rows;
      rows := map id | id in rows ::
        if rows[id].token == token && rows[id].status != Revoked
        then rows[id].(ip := ip, port := port, status := Active) else rows[id];
      SameTokensStayDistinct(before, rows);
      assert forall k, t :: Names(rows, t, k) <==> Names(before, t, k);
      if found :| found in rows && rows[found].ip == ip && rows[found].port == port && rows[found].token == token {
        assert Names(before, token, found);
        id := Some(found);
      } else {
        id := None;
      }
    }

    /** `key` is the identifier that the database generates. */
    method InitializeSensor(token: Text, key: int32) returns (id: int32)
      requires Valid() && !TokenExists(rows, token) && key !in rows
      modifies this`rows
      ensures Valid() && rows == old(rows)[key := Row([], token, Fresh, [], 0)] && id == key
    {
      FreshTokenStaysDistinct(rows, token, key, Row([], token, Fresh, [], 0));
      rows := rows[key := Row([], token, Fresh, [], 0)];
      id := key;
    }

    /** False: no row has this id, and reading it back throws. */
    method RevokeSensor(id: int32) returns (found: bool)
      requires Valid()
      modifies this`rows
      ensures Valid() && rows == Revoke(old(rows), id) && (found <==> id in old(rows))
      ensures rows == if found then old(rows)[id := old(rows)[id].(status := Status.Revoked)] else old(rows)
    {
      ghost var before := rows;
      found := id in rows;
      if found {
        rows := rows[id := rows[id].(status := Revoked)];
      }
      SameTokensStayDistinct(before, rows);
    }

    method DisconnectSensor(id: int32) returns (found: bool)
      requires Valid()
      modifies this`rows
      ensures Valid() && rows == Deactivate(old(rows), id) && (found <==> id in old(rows))
      ensures rows == if found && old(rows)[id].status != Status.Revoked
        then old(rows)[id := old(rows)[id].(status := Inactive)] else old(rows)
    {
      ghost var before := rows;
      found := id in rows;
      if found && rows[id].status != Revoked {
        rows := rows[id := rows[id].(status := Inactive)];
      }
      SameTokensStayDistinct(before, rows);
    }

    method EditSensor(id: int32, name: Text) returns (found: bool)
      requires Valid()
      modifies this`rows
      ensures Valid() && rows == Rename(old(rows), id, name) && (found <==> id in old(rows))
      ensures rows == if found then old(rows)[id := old(rows)[id].(name := name)] else old(rows)
    {
      ghost var before := rows;
      found := id in rows;
      if found {
        rows := rows[id := rows[id].(name := name)];
      }
      SameTokensStayDistinct(before, rows);
    }

    method AddMeasurement(sensorId: int32, measure: int32, timestamp: int32)
      modifies this`measurements
      ensures measurements == old(measurements) + [Stored(sensorId, measure, timestamp)]
    {
      measurements := measurements + [Stored(sensorId, measure, timestamp)];
    }

    /** The loop over the result set of the active and disconnected sensors. */
    method GetAllSensors() returns (sensors: seq<Listed>)
      ensures Lists(rows, sensors)
    {
      var selected := map id | id in rows && (rows[id].status == Active || rows[id].status == Inactive) :: rows[id];
      var left := selected.Keys;
      sensors := [];
      while left != {}
        invariant left <= selected.Keys
        invariant forall i, j :: 0 <= i < j < |sensors| ==> sensors[i].id != sensors[j].id
        invariant forall s <- sensors :: s.id in selected && s.id !in left
        invariant forall s <- sensors ::
          s == Listed(s.id, rows[s.id].name, rows[s.id].ip, rows[s.id].port, rows[s.id].status == Active)
        invariant forall id <- selected :: id !in left ==> exists s :: s in sensors && s.id == id
        decreases |left|
      {
        var id :| id in left;
        var row := selected[id];
        ghost var before := sensors;
        var next := Listed(id, row.name, row.ip, row.port, row.status == Active);
        sensors := sensors + [next];
        left := left - {id};
        forall k | k in selected && k !in left
          ensures exists s :: s in sensors && s.id == k
        {
          if k == id {
            assert next in sensors;
          } else {
            var s :| s in before && s.id == k;
            assert s in sensors;
          }
        }
      }
      forall id | id in rows && (rows[id].status == Active || rows[id].status == Inactive)
        ensures exists s :: s in sensors && s.id == id
      {
        assert id in selected;
      }
    }
  }

  // ---- tokens ----

  /** alphanum[i]: the digits, the upper-case and the lower-case letters. */
  function Alphanum(i: nat): (b: byte)
    requires i < 62
    ensures IsAlphanum(b)
  {
    (if i < 10 then 48 + i else if i < 36 then 65 + (i - 10) else 97 + (i - 36)) as byte
  }

  predicate IsAlphanum(b: byte) {
    48 <= b <= 57 || 65 <= b <= 90 || 97 <= b <= 122
  }

  function Draw(rand: nat -> nat, first: nat, i: nat): (d: nat)
    ensures d < 62
  {
    rand(first + i) % 62
  }

  /** The token that 15 successive values of rand() make. */
  function TokenAt(rand: nat -> nat, first: nat): (token: Text)
    ensures |token| == 15
  {
    seq(15, i requires 0 <= i < 15 => Alphanum(Draw(rand, first, i)))
  }

  /** Tokens are as various as the draws: equal exactly when all 15 draws agree modulo 62. */
  lemma TokensEqualIff(rand: nat -> nat, a: nat, b: nat)
    ensures TokenAt(rand, a) == TokenAt(rand, b) <==>
      forall i: nat :: i < 15 ==> Draw(rand, a, i) == Draw(rand, b, i)
  {
    if TokenAt(rand, a) == TokenAt(rand, b) {
      forall i: nat | i < 15
        ensures Draw(rand, a, i) == Draw(rand, b, i)
      {
        assert TokenAt(rand, a)[i] == TokenAt(rand, b)[i];
        AlphanumIsInjective(Draw(rand, a, i), Draw(rand, b, i));
      }
    }
    if forall i: nat :: i < 15 ==> Draw(rand, a, i) == Draw(rand, b, i) {
      forall i | 0 <= i < 15
        ensures TokenAt(rand, a)[i] == TokenAt(rand, b)[i]
      {
        assert Draw(rand, a, i) == Draw(rand, b, i);
      }
    }
  }

  lemma AlphanumIsInjective(i: nat, j: nat)
    requires i < 62 && j < 62 && Alphanum(i) == Alphanum(j)
    ensures i == j
  {
  }

  /** ServerModel::generateToken */
  method GenerateToken(rand: nat -> nat, first: nat) returns (token: Text)
    ensures token == TokenAt(rand, first)
    ensures |token| == 15 && forall i: nat :: i < 15 ==>
      var d := rand(first + i) % 62;
      token[i] as int == if d < 10 then '0' as int + d else if d < 36 then 'A' as int + d - 10 else 'a' as int + d - 36
    ensures |token| == 15 && forall i :: 0 <= i < 15 ==> IsAlphanum(token[i])
  {
    token := [];
    for i := 0 to 15
      invariant |token| == i
      invariant forall k :: 0 <= k < i ==> token[k] == Alphanum(Draw(rand, first, k))
    {
      token := token + [Alphanum(Draw(rand, first, i))];
    }
  }

  /** The loop of GENERATE_TOKEN: draws until the token is not in the table, and stops at the
      first such token.  It would not stop if no draw ever gave a new one. */
  method GenerateNewToken(table: SensorTable, rand: nat -> nat, ghost some: nat) returns (token: Text, ghost k: nat)
    requires !TokenExists(table.rows, TokenAt(rand, some * 15))
    ensures token == TokenAt(rand, k * 15) && !TokenExists(table.rows, token)
    ensures forall j: nat :: j < k ==> TokenExists(table.rows, TokenAt(rand, j * 15))
  {
    var drawn := 0;
    k := 0;
    token := GenerateToken(rand, drawn);
    var taken := table.CheckIfTokenExists(token);
    while taken
      invariant drawn == k * 15 && k <= some
      invariant token == TokenAt(rand, drawn) && (taken <==> TokenExists(table.rows, token))
      invariant forall j: nat :: j < k ==> TokenExists(table.rows, TokenAt(rand, j * 15))
      decreases some - k
    {
      drawn, k := drawn + 15, k + 1;
      token := GenerateToken(rand, drawn);
      taken := table.CheckIfTokenExists(token);
    }
  }
}
