/** The buffer cache of kernel/bio.c as a value: which keys are cached, with what data and
    what reference count.  The pointer ring of BufferCache refines it; LogMachine runs on it. */
module CacheSpec {
  import opened LogDisk

  const REFMOD: nat := 0x1_0000_0000     // refcnt is a 32-bit unsigned integer

  datatype Entry = Entry(valid: bool, data: Block, refcnt: nat)

  type Cache<!K> = map<K, Entry>

  function Inc(r: nat): nat { if r == REFMOD - 1 then 0 else r + 1 }
  function Dec(r: nat): nat { if r == 0 then REFMOD - 1 else r - 1 }

  /** bget() on a cached key. */
  function Hit<K>(c: Cache<K>, k: K): Cache<K>
    requires k in c
  {
    c[k := c[k].(refcnt := Inc(c[k].refcnt))]
  }

  /** bget() on an absent key, after a buffer (still holding `junk`) has been found for it. */
  function Miss<K>(c: Cache<K>, k: K, junk: Block): Cache<K> {
    c[k := Entry(false, junk, 1)]
  }

  function Get<K>(c: Cache<K>, k: K, junk: Block): Cache<K> {
    if k in c then Hit(c, k) else Miss(c, k, junk)
  }

  /** bpin() */
  function Pin<K>(c: Cache<K>, k: K): Cache<K>
    requires k in c
  {
    c[k := c[k].(refcnt := Inc(c[k].refcnt))]
  }

  /** bunpin(), and the count kept by brelse() */
  function Drop<K>(c: Cache<K>, k: K): Cache<K>
    requires k in c
  {
    c[k := c[k].(refcnt := Dec(c[k].refcnt))]
  }

  /** The holder of a buffer fills it from disk or overwrites it. */
  function SetData<K>(c: Cache<K>, k: K, data: Block): Cache<K>
    requires k in c
  {
    c[k := c[k].(valid := true, data := data)]
  }

  /** bread() reads the block only into a buffer that is not valid. */
  function Filled<K>(c: Cache<K>, k: K, block: Block): Cache<K>
    requires k in c
  {
    if c[k].valid then c else SetData(c, k, block)
  }

  /** SetData() then Drop(): install_trans() fills the destination buffer and unpins it. */
  function FillAndDrop<K>(c: Cache<K>, k: K, data: Block): Cache<K>
    requires k in c
  {
    c[k := Entry(true, data, Dec(c[k].refcnt))]
  }

  /** bget() may take a buffer for another block exactly when its count is zero. */
  predicate Recyclable<K>(c: Cache<K>, k: K) {
    k in c && c[k].refcnt == 0
  }
}
