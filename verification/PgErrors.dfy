/** The store's error type, the classification of driver errors (src/error.rs), and the
    question both begin loops branch on: is a retry worth it? */
module PgErrors {
  import opened Wrappers
  import opened KeyOrder
  import opened Decimal

  /** What the driver reports. `Unmapped` stands for every variant the source sends to its
      catch-all arm, with the text it displays as. */
  datatype SqlxError =
    | Database(code: Option<string>, message: string)
    | PoolTimedOut
    | DriverPoolClosed
    | DriverIo(message: string)
    | Tls(message: string)
    | Protocol(message: string)
    | WorkerCrashed
    | Unmapped(display: string)

  datatype PgStoreError =
    | KeyAlreadyExists(key: Key)
    | ConditionNotMet(key: Key)
    | TxClosed
    | TxReadOnly
    | Deadlock(message: string)
    | SerializationFailure(message: string)
    | PoolTimeout
    | ConnectTimeout(limit: string)  // the duration as it displays
    | Io(message: string)
    | PoolClosed
    | Postgres(message: string)
    | Other(message: string)

  const CONNECTION_PREFIX := "connection error [08"

  predicate StartsWith(s: string, prefix: string)
  {
    |prefix| <= |s| && s[..|prefix|] == prefix
  }

  predicate IsTransient(e: PgStoreError)
  {
    match e
    case PoolTimeout | ConnectTimeout(_) | Io(_) => true
    case Postgres(message) => StartsWith(message, CONNECTION_PREFIX)
    case Deadlock(_) | SerializationFailure(_) => true
    case _ => false
  }

  /** The bytes of a key as a debug listing: `[1, 2, 255]`. */
  function ShowBytes(key: Key): string
  {
    if key == [] then "" else if |key| == 1 then Print(key[0]) else Print(key[0]) + ", " + ShowBytes(key[1..])
  }

  /** The text an error displays as. */
  function Display(e: PgStoreError): string
  {
    match e
    case KeyAlreadyExists(key) => "key already exists: [" + ShowBytes(key) + "]"
    case ConditionNotMet(key) => "condition not met for key: [" + ShowBytes(key) + "]"
    case TxClosed => "transaction already closed"
    case TxReadOnly => "transaction is read-only"
    case Deadlock(message) => "deadlock detected: " + message
    case SerializationFailure(message) => "serialization failure: " + message
    case PoolTimeout => "connection pool timeout"
    case ConnectTimeout(limit) => "connection timeout: failed to connect within " + limit
    case Io(message) => "I/O error: " + message
    case PoolClosed => "connection pool closed"
    case Postgres(message) => "postgres error: " + message
    case Other(message) => message
  }

  function FromSqlx(key: Option<Key>, e: SqlxError): PgStoreError
  {
    match e
    case Database(maybeCode, message) =>
      var code := if maybeCode.Some? then maybeCode.value else "58000";
      if code == "23505" then
        if key.Some? then KeyAlreadyExists(key.value) else Other("unique violation: " + message)
      else if StartsWith(code, "08") then Postgres("connection error [" + code + "]: " + message)
      else if code == "40P01" then Deadlock(message)
      else if code == "40001" then SerializationFailure(message)
      else Postgres("[" + code + "]: " + message)
    case PoolTimedOut => PoolTimeout
    case DriverPoolClosed => PoolClosed
    case DriverIo(message) => Io(message)
    case Tls(message) => Io("TLS error: " + message)
    case Protocol(message) => Io("protocol error: " + message)
    case WorkerCrashed => Io("connection pool worker task crashed")
    case Unmapped(display) => Postgres(display)
  }

  /** The driver errors a fresh connection or another attempt may cure. */
  predicate Curable(e: SqlxError)
  {
    match e
    case Database(Some(code), _) => StartsWith(code, "08") || code == "40P01" || code == "40001"
    case Database(None, _) => false
    case PoolTimedOut | DriverIo(_) | Tls(_) | Protocol(_) | WorkerCrashed => true
    case DriverPoolClosed => false
    case Unmapped(display) => StartsWith(display, CONNECTION_PREFIX)
  }

  /** Going through message text loses nothing: the text prefix the retry test looks for is
      present exactly for the driver errors that are curable, whatever key is attached. */
  lemma TransientExactlyWhenCurable(key: Option<Key>, e: SqlxError)
    ensures IsTransient(FromSqlx(key, e)) <==> Curable(e)
  {
    if e.Database? {
      var code := if e.code.Some? then e.code.value else "58000";
      NotBracketed("[" + code + "]: " + e.message);
      assert "58000"[..2] == "58" && "40P01"[..2] == "40" && "40001"[..2] == "40" && "23505"[..2] == "23";
      if StartsWith(code, "08") {
        var text := "connection error [" + code + "]: " + e.message;
        assert text[..|CONNECTION_PREFIX|] == "connection error [" + code[..2];
        assert CONNECTION_PREFIX == "connection error [" + "08";
      }
    }
  }

  /** Which driver errors become which, for SQLSTATE codes: each class of the store exactly from
      its own codes, with the server's message. */
  lemma SqlStates(key: Option<Key>, code: string, message: string)
    ensures var e := FromSqlx(key, Database(Some(code), message));
            && (code == "40P01" <==> e == Deadlock(message))
            && (code == "40001" <==> e == SerializationFailure(message))
            && (code == "23505" && key.Some? <==> e.KeyAlreadyExists?)
            && (e.KeyAlreadyExists? ==> Some(e.key) == key)
            && (code == "23505" && key.None? ==> e == Other("unique violation: " + message))
            && (StartsWith(code, "08") ==> e == Postgres("connection error [" + code + "]: " + message))
            && (!StartsWith(code, "08") && code !in {"23505", "40P01", "40001"} ==>
                  e == Postgres("[" + code + "]: " + message))
            && FromSqlx(key, Database(None, message)) == Postgres("[58000]: " + message)
  {
    assert "58000"[..2] == "58" && "40P01"[..2] == "40" && "40001"[..2] == "40" && "23505"[..2] == "23";
    assert "40P01"[2] != "40001"[2];
    assert "[" + "58000" + "]: " == "[58000]: ";
  }

  /** Of the driver errors that come from no server, each class has its own: the pool's two, and
      I/O for what breaks on the wire. */
  lemma DriverErrors(key: Option<Key>, e: SqlxError)
    requires !e.Database?
    ensures FromSqlx(key, e).PoolTimeout? <==> e.PoolTimedOut?
    ensures FromSqlx(key, e).PoolClosed? <==> e.DriverPoolClosed?
    ensures FromSqlx(key, e).Io? <==> e.DriverIo? || e.Tls? || e.Protocol? || e.WorkerCrashed?
    ensures e.DriverIo? ==> FromSqlx(key, e) == Io(e.message)
    ensures FromSqlx(key, e).Postgres? <==> e.Unmapped?
  {
  }

  lemma NotBracketed(text: string)
    requires text != [] && text[0] == '['
    ensures !StartsWith(text, CONNECTION_PREFIX)
  {
    assert CONNECTION_PREFIX[0] == 'c';
    assert |text| >= |CONNECTION_PREFIX| ==> text[..|CONNECTION_PREFIX|][0] == '[';
  }
}
