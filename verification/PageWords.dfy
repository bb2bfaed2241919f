/** The budget page as an array of 64-bit words, and the ordered stores a writer makes on it.

The page is 4096 bytes, so 512 words. Word 0 holds the magic, word 1 packs abiMajor (bits 0-15),
abiMinor (16-31) and headerSize (32-63), the low half of word 2 is bodySize, word 8 is the seqlock
word, word 16 is notifyEpoch and the body starts at word 24.
*/
module PageWords {
  const WORD_LIMIT: int := 0x1_0000_0000_0000_0000
  const HALF_LIMIT: int := 0x1_0000_0000
  const SHORT_LIMIT: int := 0x1_0000
  const SEQ_RANGE: int := 0x8000_0000_0000_0000

  type Word = x: int | 0 <= x < WORD_LIMIT

  const PAGE_WORDS: nat := 512
  const HEADER_WORDS: nat := 8
  const SEQ_WORD: nat := 8
  const EPOCH_WORD: nat := 16
  const BODY_WORD: nat := 24

  const PAGE_SIZE: nat := 4096
  const PAGE_HEADER_SIZE: nat := 192
  const PAGE_BODY_LIMIT: nat := 3072
  const PAGE_ABI_MAJOR: nat := 1

  /** The eight bytes "K3SMBDGT" read as a little-endian word. */
  const MAGIC_WORD: Word := 0x5447_4442_4D53_334B

  type Page = p: seq<Word> | |p| == PAGE_WORDS witness seq(PAGE_WORDS, _ => 0)

  /** A uint64 sum wraps. */
  function Wrap(x: int): Word {
    x % WORD_LIMIT
  }

  lemma WrapAdd(x: int, y: int)
    ensures Wrap(Wrap(x) + y) == Wrap(x + y)
  {
  }

  lemma WrapParity(x: int)
    ensures Wrap(x) % 2 == x % 2
  {
  }

  /** Two sums of one counter agree only when the counter moved a whole number of wraps. */
  lemma WrapInjective(x: int, d: nat)
    requires d < WORD_LIMIT && Wrap(x + d) == Wrap(x)
    ensures d == 0
  {
  }

  function Major(w: Word): nat {
    w % SHORT_LIMIT
  }

  function Minor(w: Word): nat {
    w / SHORT_LIMIT % SHORT_LIMIT
  }

  function HeaderSize(w: Word): nat {
    w / HALF_LIMIT
  }

  function BodySize(w: Word): nat {
    w % HALF_LIMIT
  }

  function PackMinorWord(minor: nat): Word
    requires minor < SHORT_LIMIT
  {
    PAGE_ABI_MAJOR + minor * SHORT_LIMIT + PAGE_HEADER_SIZE * HALF_LIMIT
  }

  /** A reader takes the page as this ABI major: magic, abiMajor and headerSize all match. */
  predicate Recognised(page: Page) {
    page[0] == MAGIC_WORD && Major(page[1]) == PAGE_ABI_MAJOR && HeaderSize(page[1]) == PAGE_HEADER_SIZE
  }

  /** The header line a writer of this minor formats. */
  function FreshHeader(minor: nat, bodySize: nat): (h: seq<Word>)
    requires minor < SHORT_LIMIT && bodySize < HALF_LIMIT
    ensures |h| == HEADER_WORDS
  {
    [MAGIC_WORD, PackMinorWord(minor), bodySize, 0, 0, 0, 0, 0]
  }

  lemma PackedFields(minor: nat)
    requires minor < SHORT_LIMIT
    ensures Major(PackMinorWord(minor)) == PAGE_ABI_MAJOR
    ensures Minor(PackMinorWord(minor)) == minor
    ensures HeaderSize(PackMinorWord(minor)) == PAGE_HEADER_SIZE
  {
    var low := PAGE_ABI_MAJOR + minor * SHORT_LIMIT;
    assert PackMinorWord(minor) / SHORT_LIMIT == minor + PAGE_HEADER_SIZE * SHORT_LIMIT;
    assert PackMinorWord(minor) / HALF_LIMIT == PAGE_HEADER_SIZE;
  }

  /** One atomic 8-byte store. */
  datatype Store = Store(index: nat, value: Word)

  predicate InPage(stores: seq<Store>) {
    forall i :: 0 <= i < |stores| ==> stores[i].index < PAGE_WORDS
  }

  /** The page after the given stores, made in order. */
  function ApplyAll(page: Page, stores: seq<Store>): Page
    requires InPage(stores)
    decreases |stores|
  {
    if stores == [] then page
    else
      var last := stores[|stores| - 1];
      ApplyAll(page, stores[..|stores| - 1])[last.index := last.value]
  }

  lemma ApplyOneMore(page: Page, stores: seq<Store>, k: nat)
    requires InPage(stores) && k < |stores|
    ensures ApplyAll(page, stores[..k + 1]) == ApplyAll(page, stores[..k])[stores[k].index := stores[k].value]
  {
    assert stores[..k + 1][..k] == stores[..k];
  }

  /** The word order of Resume's header stores: everything but the two version words, then the
  version word whose early store keeps the header valid, then the other, then the magic. */
  function ResumeOrder(shrinks: bool): (order: seq<nat>)
    ensures |order| == HEADER_WORDS
    ensures forall k :: 0 <= k < |order| ==> order[k] < HEADER_WORDS
  {
    [7, 6, 5, 4, 3] + (if shrinks then [1, 2] else [2, 1]) + [0]
  }

  /** The old header is this ABI's and its body is larger than the new one: a rollback. */
  predicate Shrinks(page: Page, bodySize: nat) {
    Recognised(page) && BodySize(page[2]) > bodySize
  }

  function ResumeStores(page: Page, minor: nat, bodySize: nat): (stores: seq<Store>)
    requires minor < SHORT_LIMIT && bodySize < HALF_LIMIT
    ensures |stores| == HEADER_WORDS && InPage(stores)
    ensures forall k :: 0 <= k < |stores| ==>
              stores[k].index < HEADER_WORDS && stores[k].value == FreshHeader(minor, bodySize)[stores[k].index]
  {
    var order := ResumeOrder(Shrinks(page, bodySize));
    seq(HEADER_WORDS, k requires 0 <= k < HEADER_WORDS => Store(order[k], FreshHeader(minor, bodySize)[order[k]]))
  }

  /** Publish's stores: seq odd, every body word, seq even and, when due, notifyEpoch. */
  function PublishStores(seqWord: Word, epoch: Word, body: seq<Word>, due: bool): (stores: seq<Store>)
    requires |body| <= PAGE_WORDS - BODY_WORD
    ensures |stores| == |body| + (if due then 3 else 2) && InPage(stores)
    ensures stores[0] == Store(SEQ_WORD, Wrap(seqWord + 1))
    ensures forall i :: 0 <= i < |body| ==> stores[i + 1] == Store(BODY_WORD + i, body[i])
    ensures stores[|body| + 1] == Store(SEQ_WORD, Wrap(seqWord + 2))
    ensures due ==> stores[|body| + 2] == Store(EPOCH_WORD, Wrap(epoch + 1))
  {
    [Store(SEQ_WORD, Wrap(seqWord + 1))]
    + seq(|body|, i requires 0 <= i < |body| => Store(BODY_WORD + i, body[i]))
    + [Store(SEQ_WORD, Wrap(seqWord + 2))]
    + (if due then [Store(EPOCH_WORD, Wrap(epoch + 1))] else [])
  }

  predicate StoresAt(store: Store, off: nat, value: int) {
    8 * store.index == off && store.value == value % 0x1_0000_0000_0000_0000
  }

  /** The byte offset and the value of each of them. */
  lemma PublishBytes(seqWord: Word, epoch: Word, body: seq<Word>, due: bool)
    requires |body| <= 488
    ensures var stores := PublishStores(seqWord, epoch, body, due);
            && |stores| == |body| + (if due then 3 else 2)
            && StoresAt(stores[0], 64, seqWord + 1)
            && (forall i :: 1 <= i <= |body| ==> StoresAt(stores[i], 184 + 8 * i, body[i - 1]))
            && StoresAt(stores[|body| + 1], 64, seqWord + 2)
            && (due ==> StoresAt(stores[|body| + 2], 128, epoch + 1))
  {
    var stores := PublishStores(seqWord, epoch, body, due);
    forall i | 1 <= i <= |body| ensures StoresAt(stores[i], 184 + 8 * i, body[i - 1]) {
      assert stores[i - 1 + 1] == Store(BODY_WORD + (i - 1), body[i - 1]);
    }
  }

  /** An odd seq, left by a writer that died mid-write, rounds up to the next even one. */
  function RoundUp(seqWord: Word): Word {
    if seqWord % 2 == 1 then Wrap(seqWord + 1) else seqWord
  }
}
