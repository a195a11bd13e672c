/**
  The RPC mailbox shared by the guest-side patch stubs and the host-side
  dispatcher: a `gdx_rpc_t` record of six 32-bit words (request, response and
  four parameters) at a fixed guest address. The guest stores a request and
  traps into the emulator; the host reads the six words, acts, and stores the
  reply in the same place.
*/
module GdxRpc {
  import opened GuestMemory

  const SOCK_OPEN: u32 := 1
  const SOCK_CLOSE: u32 := 2
  const SOCK_READ: u32 := 3
  const SOCK_WRITE: u32 := 4
  const SOCK_POLL: u32 := 5

  datatype Rpc = Rpc(request: u32, response: u32, param1: u32, param2: u32, param3: u32, param4: u32)

  /** The record's words in memory order. */
  function Words(r: Rpc): (ws: seq<u32>)
    ensures |ws| == 6
  {
    [r.request, r.response, r.param1, r.param2, r.param3, r.param4]
  }

  /** The guest address of word `k` of the record at `a`. */
  function WordAddr(a: u32, k: nat): u32 {
    AddrAdd(a, 4 * k)
  }

  /** The record as read word by word from guest memory at `a`. */
  function Mailbox(m: Bytes, a: u32): Rpc {
    Rpc(Load32(m, WordAddr(a, 0)), Load32(m, WordAddr(a, 1)), Load32(m, WordAddr(a, 2)),
        Load32(m, WordAddr(a, 3)), Load32(m, WordAddr(a, 4)), Load32(m, WordAddr(a, 5)))
  }

  /** Memory after `ws[0]`, `ws[1]`, ... are stored as consecutive words from `a`, in order. */
  function StoredWords(m: Bytes, a: u32, ws: seq<u32>): Bytes
    decreases |ws|
  {
    if ws == [] then m
    else Store32(StoredWords(m, a, ws[..|ws| - 1]), WordAddr(a, |ws| - 1), ws[|ws| - 1])
  }

  /** Distinct words of a record do not overlap, even when the record wraps
      around the top of the address space. */
  lemma WordsApart(a: u32, i: nat, j: nat)
    requires i < j < 6
    ensures Disjoint(WordAddr(a, j), 4, WordAddr(a, i), 4)
  {
    var d := 4 * (j - i);
    assert WordAddr(a, j) == AddrAdd(WordAddr(a, i), d);
    assert WordAddr(a, i) == AddrAdd(WordAddr(a, j), ADDR_SPACE - d);
    OffsetOfAddrAdd(WordAddr(a, i), d);
    OffsetOfAddrAdd(WordAddr(a, j), ADDR_SPACE - d);
  }

  /** Each word of a run of at most six reads back as it was stored: later
      words of the run never overwrite earlier ones. */
  lemma {:induction false} StoredWordsLoad(m: Bytes, a: u32, ws: seq<u32>, k: nat)
    requires k < |ws| <= 6
    ensures Load32(StoredWords(m, a, ws), WordAddr(a, k)) == ws[k]
    decreases |ws|
  {
    var n := |ws| - 1;
    var init := StoredWords(m, a, ws[..n]);
    if k == n {
      Load32Store32(init, WordAddr(a, n), ws[n]);
    } else {
      WordsApart(a, k, n);
      Load32StoreDisjoint(init, WordAddr(a, n), ws[n], WordAddr(a, k));
      StoredWordsLoad(m, a, ws[..n], k);
    }
  }

  /** A record stored word by word is read back unchanged. */
  lemma MailboxStored(m: Bytes, a: u32, r: Rpc)
    ensures Mailbox(StoredWords(m, a, Words(r)), a) == r
  {
    var ws := Words(r);
    StoredWordsLoad(m, a, ws, 0);
    StoredWordsLoad(m, a, ws, 1);
    StoredWordsLoad(m, a, ws, 2);
    StoredWordsLoad(m, a, ws, 3);
    StoredWordsLoad(m, a, ws, 4);
    StoredWordsLoad(m, a, ws, 5);
  }

  /** Storing one more word extends the run by one store. */
  lemma StoredWordsSnoc(m: Bytes, a: u32, ws: seq<u32>, w: u32)
    ensures StoredWords(m, a, ws + [w]) == Store32(StoredWords(m, a, ws), WordAddr(a, |ws|), w)
  {
    assert (ws + [w])[..|ws|] == ws;
  }

  /** Six single word stores in field order leave memory as `StoredWords` says. */
  lemma StoredSix(m: Bytes, a: u32, r: Rpc)
    ensures StoredWords(m, a, Words(r))
         == Store32(Store32(Store32(Store32(Store32(Store32(m,
              WordAddr(a, 0), r.request), WordAddr(a, 1), r.response),
              WordAddr(a, 2), r.param1), WordAddr(a, 3), r.param2),
              WordAddr(a, 4), r.param3), WordAddr(a, 5), r.param4)
  {
    assert [r.request] == [] + [r.request];
    assert [r.request, r.response] == [r.request] + [r.response];
    assert [r.request, r.response, r.param1] == [r.request, r.response] + [r.param1];
    assert [r.request, r.response, r.param1, r.param2] == [r.request, r.response, r.param1] + [r.param2];
    assert [r.request, r.response, r.param1, r.param2, r.param3]
        == [r.request, r.response, r.param1, r.param2] + [r.param3];
    assert Words(r) == [r.request, r.response, r.param1, r.param2, r.param3] + [r.param4];
    StoredWordsSnoc(m, a, [], r.request);
    StoredWordsSnoc(m, a, [r.request], r.response);
    StoredWordsSnoc(m, a, [r.request, r.response], r.param1);
    StoredWordsSnoc(m, a, [r.request, r.response, r.param1], r.param2);
    StoredWordsSnoc(m, a, [r.request, r.response, r.param1, r.param2], r.param3);
    StoredWordsSnoc(m, a, [r.request, r.response, r.param1, r.param2, r.param3], r.param4);
  }

  /** Six single word stores of the record's fields, in field order, as
      both sides write the mailbox. */
  method WriteMailbox(mem: Memory, a: u32, r: Rpc)
    modifies mem
    ensures mem.bytes == StoredWords(old(mem.bytes), a, Words(r))
  {
    mem.Write32(a, r.request);
    mem.Write32(AddrAdd(a, 4), r.response);
    mem.Write32(AddrAdd(a, 8), r.param1);
    mem.Write32(AddrAdd(a, 12), r.param2);
    mem.Write32(AddrAdd(a, 16), r.param3);
    mem.Write32(AddrAdd(a, 20), r.param4);
    StoredSix(old(mem.bytes), a, r);
  }
}
