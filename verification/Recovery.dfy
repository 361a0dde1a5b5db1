/**
 Rebuilding the memtable from the log. The log does not tell an empty value from no value, and putting
 an entry without a value raises: recovery fails exactly on logged empty values.
 */
module Recovery {
  import opened Options
  import opened Clock
  import opened Records
  import WalFraming

  /** A log entry as replay yields it. */
  datatype Logged = Logged(key: Key, ts: Timestamp, value: Option<Value>, deleted: bool)

  /** What replay yields for a record handed to append: length 0 reads back as no value. */
  function FromLog(r: Rec): Logged {
    Logged(r.key, r.ts, if r.value == Some("") then None else r.value, r.value.None?)
  }

  function FromLogAll(recs: seq<Rec>): (log: seq<Logged>)
    ensures |log| == |recs| && forall i | 0 <= i < |recs| :: log[i] == FromLog(recs[i])
  {
    seq(|recs|, i requires 0 <= i < |recs| => FromLog(recs[i]))
  }

  /** One step of _recover: delete, or put. None is the exception of put on a missing value. */
  function Readded(e: Logged): Option<Rec> {
    if e.deleted then Some(Rec(e.key, e.ts, None))
    else if e.value.None? then None
    else Some(Rec(e.key, e.ts, e.value))
  }

  /** _recover over a whole log; None when it raises. */
  function Recover(log: seq<Logged>): Option<seq<Rec>> {
    if log == [] then Some([])
    else
      var n := |log| - 1;
      match (Recover(log[..n]), Readded(log[n]))
      case (Some(mem), Some(r)) => Some(Insert(mem, r))
      case _ => None
  }

  ghost predicate HasEmptyValue(recs: seq<Rec>) {
    exists r :: r in recs && r.value == Some("")
  }

  /** Recovery raises if and only if an empty value was logged, and otherwise restores every logged record. */
  lemma {:induction false} RecoverIff(recs: seq<Rec>)
    ensures Recover(FromLogAll(recs)) == if HasEmptyValue(recs) then None else Some(Sort(recs))
  {
    hide Insert;
    if recs != [] {
      var n := |recs| - 1;
      RecoverIff(recs[..n]);
      assert FromLogAll(recs)[..n] == FromLogAll(recs[..n]);
      assert recs == recs[..n] + [recs[n]];
      assert HasEmptyValue(recs) <==> HasEmptyValue(recs[..n]) || recs[n].value == Some("");
    }
  }

  // ---------- the same at the level of bytes ----------

  /** Any encoding of keys and values in which only the empty value has no bytes. */
  datatype Encoding = Encoding(key: Key -> WalFraming.Bytes, value: Value -> WalFraming.Bytes) {
    ghost predicate Faithful() {
      forall v :: value(v) == [] <==> v == ""
    }
  }

  /** WALEntry of put (a value) or delete (none). */
  function Entry(enc: Encoding, uncertainty: nat, e: Logged): WalFraming.Entry {
    WalFraming.Entry(e.ts.physical, e.ts.logical, uncertainty, enc.key(e.key),
                     match e.value case None => None case Some(v) => Some(enc.value(v)), e.deleted)
  }

  /** Deserializing what append serialized gives the entry that replay is modelled to yield. */
  lemma LogBytesComeBack(enc: Encoding, uncertainty: nat, r: Rec)
    requires enc.Faithful() && WalFraming.Fits(Entry(enc, uncertainty, Logged(r.key, r.ts, r.value, r.value.None?)))
    ensures
      WalFraming.Deserialize(WalFraming.Body(Entry(enc, uncertainty, Logged(r.key, r.ts, r.value, r.value.None?))))
        == Some(Entry(enc, uncertainty, FromLog(r)))
  {
    hide WalFraming.Body, WalFraming.Deserialize, WalFraming.Fits;
    WalFraming.BodyComesBack(Entry(enc, uncertainty, Logged(r.key, r.ts, r.value, r.value.None?)));
  }
}
