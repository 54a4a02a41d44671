/** The blood-bank transaction record and the signed inventory change it carries. */
module Records {

  /** The source's `'donation' | 'reception'` union. */
  datatype Kind = Donation | Reception

  /** What `addRecord` receives: every field of a record except its id.
      Dates are millisecond timestamps. */
  datatype Entry = Entry(
    cpf: string,
    name: string,
    age: int,
    weight: real,
    bloodType: string,
    bags: int,
    date: int,
    kind: Kind)

  /** A stored record: the key the store's key generator assigned, and the entry. */
  datatype BloodRecord = BloodRecord(id: nat, entry: Entry)

  /** `+bags` for a donation, `-bags` for a reception. */
  function Delta(e: Entry): int
  {
    if e.kind == Donation then e.bags else -e.bags
  }

  /** `Math.max(0, v)`. */
  function Clamp(v: int): int
  {
    if v < 0 then 0 else v
  }

  /** `q` is the maximum of 0 and `v`: at least both, and equal to one of them. */
  predicate IsClampOf(v: int, q: int)
  {
    q >= 0 && q >= v && (q == 0 || q == v)
  }

  /** Clamp computes exactly the maximum of 0 and its argument. */
  lemma ClampIsMax(v: int)
    ensures IsClampOf(v, Clamp(v))
    ensures forall q :: IsClampOf(v, q) ==> q == Clamp(v)
  {
  }
}
