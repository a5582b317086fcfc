/**
 Records as files named by decimal identifiers: a page of the catalogue reads only the files of its
 window, and a receipt is found by the front of its name.
 */
module Catalogue {
  import opened Bytes
  import opened Errors
  import opened Records

  // ----- decimal names -----

  function Digit(d: nat): char
    requires d < 10
  {
    '0' + d as char
  }

  function Decimal(n: nat): (s: string)
    ensures s != []
  {
    if n < 10 then [Digit(n)] else Decimal(n / 10) + [Digit(n % 10)]
  }

  predicate IsDigit(c: char) {
    '0' <= c <= '9'
  }

  /** Reading a whole text as an unsigned number; anything but digits is refused. */
  function ParseDecimal(s: string): Option<nat> {
    if s == [] then None
    else
      var n := |s| - 1;
      if !IsDigit(s[n]) then None
      else
        var last := s[n] as int - '0' as int;
        if n == 0 then Some(last)
        else
          var front := ParseDecimal(s[..n]);
          if front.None? then None else Some(front.value * 10 + last)
  }

  lemma {:induction false} ParseDecimalOf(n: nat)
    ensures ParseDecimal(Decimal(n)) == Some(n)
  {
    if n >= 10 {
      ParseDecimalOf(n / 10);
      assert Decimal(n)[..|Decimal(n)| - 1] == Decimal(n / 10);
    }
  }

  lemma {:induction false} DecimalDigits(n: nat)
    ensures forall c | c in Decimal(n) :: IsDigit(c)
  {
    if n >= 10 {
      DecimalDigits(n / 10);
    }
  }

  lemma DecimalInjective(a: nat, b: nat)
    requires Decimal(a) == Decimal(b)
    ensures a == b
  {
    ParseDecimalOf(a);
    ParseDecimalOf(b);
  }

  /** What stands in front of a mark that is no digit determines the number. */
  lemma DelimitedDecimal(a: nat, b: nat, delimiter: char, rest: string)
    requires !IsDigit(delimiter) && Decimal(a) + [delimiter] <= Decimal(b) + [delimiter] + rest
    ensures a == b
  {
    DecimalDigits(a);
    DecimalDigits(b);
    var short, long := Decimal(a), Decimal(b) + [delimiter] + rest;
    assert long[|short|] == delimiter && long[|Decimal(b)|] == delimiter;
    assert forall i | 0 <= i < |short| :: long[i] == short[i] && IsDigit(short[i]);
    assert forall i | 0 <= i < |Decimal(b)| :: long[i] == Decimal(b)[i] && IsDigit(Decimal(b)[i]);
    assert |short| == |Decimal(b)|;
    assert short == long[..|short|] == Decimal(b);
    DecimalInjective(a, b);
  }

  // ----- stored receipts -----

  const RECEIPT_SUFFIX := ".receipt"

  function ReceiptName(id: uint64, device: string): string {
    Decimal(id) + "-" + device + RECEIPT_SUFFIX
  }

  method HasReceipt(names: seq<string>, id: uint64) returns (found: bool)
    ensures found <==> exists name :: name in names && Decimal(id) + "-" <= name
  {
    var prefix := Decimal(id) + "-";
    for i := 0 to |names|
      invariant forall j | 0 <= j < i :: !(prefix <= names[j])
    {
      if prefix <= names[i] {
        assert names[i] in names;
        return true;
      }
    }
    return false;
  }

  /** The names in the directory are those of the stored receipts. */
  ghost predicate ReceiptsNamed(names: seq<string>, stored: set<(uint64, string)>) {
    && (forall k | k in stored :: ReceiptName(k.0, k.1) in names)
    && (forall name | name in names :: exists k :: k in stored && name == ReceiptName(k.0, k.1))
  }

  lemma PrefixOfName(id: uint64, other: uint64, device: string)
    ensures Decimal(id) + "-" <= ReceiptName(other, device) <==> id == other
  {
    hide Decimal;
    var rest := device + RECEIPT_SUFFIX;
    assert ReceiptName(other, device) == Decimal(other) + ['-'] + rest;
    if Decimal(id) + ['-'] <= ReceiptName(other, device) {
      DelimitedDecimal(id, other, '-', rest);
    }
  }

  /** The prefix finds a receipt exactly when one is stored for that very identifier: 12 is not found at 123. */
  lemma PrefixFindsExactly(names: seq<string>, stored: set<(uint64, string)>, id: uint64)
    requires ReceiptsNamed(names, stored)
    ensures (exists name :: name in names && Decimal(id) + "-" <= name) <==> exists device :: (id, device) in stored
  {
    hide Decimal, ReceiptName;
    if name :| name in names && Decimal(id) + "-" <= name {
      var k :| k in stored && name == ReceiptName(k.0, k.1);
      PrefixOfName(id, k.0, k.1);
      assert (id, k.1) in stored;
    }
    if device :| (id, device) in stored {
      PrefixOfName(id, id, device);
      assert ReceiptName((id, device).0, (id, device).1) in names;
    }
  }

  // ----- publications as files -----

  const PUBLICATION_SUFFIX := ".publication"

  function PublicationName(id: uint64): string {
    Decimal(id) + PUBLICATION_SUFFIX
  }

  function LastDot(name: string): Option<nat> {
    if name == [] then None
    else if name[|name| - 1] == '.' then Some(|name| - 1)
    else LastDot(name[..|name| - 1])
  }

  lemma {:induction false} LastDotAt(front: string, back: string)
    requires '.' !in back
    ensures LastDot(front + "." + back) == Some(|front|)
  {
    var whole := front + "." + back;
    if back != [] {
      assert whole[..|whole| - 1] == front + "." + back[..|back| - 1];
      LastDotAt(front, back[..|back| - 1]);
    }
  }

  lemma {:induction false} LastDotWithin(name: string)
    ensures LastDot(name).Some? ==> LastDot(name).value < |name|
  {
    if name != [] {
      LastDotWithin(name[..|name| - 1]);
    }
  }

  /** A file name without its extension; a dot in front begins no extension. */
  function Stem(name: string): string {
    LastDotWithin(name);
    if LastDot(name).None? || LastDot(name).value == 0 then name else name[..LastDot(name).value]
  }

  function IdentifierOf(name: string): Option<uint64> {
    var parsed := ParseDecimal(Stem(name));
    if parsed.None? || parsed.value >= 0x1_0000_0000_0000_0000 then None else parsed
  }

  lemma IdentifierOfName(id: uint64)
    ensures IdentifierOf(PublicationName(id)) == Some(id)
  {
    assert PublicationName(id) == Decimal(id) + "." + "publication";
    LastDotAt(Decimal(id), "publication");
    assert PublicationName(id)[..|Decimal(id)|] == Decimal(id);
    ParseDecimalOf(id);
  }

  datatype Entry = Entry(id: uint64, name: string)

  datatype Page = Page(offset: nat, limit: nat, total: nat, records: seq<Publication>)

  function Entries(names: seq<string>): Option<seq<Entry>> {
    if names == [] then Some([])
    else
      var n := |names| - 1;
      var front, id := Entries(names[..n]), IdentifierOf(names[n]);
      if front.None? || id.None? then None else Some(front.value + [Entry(id.value, names[n])])
  }

  function Insert(es: seq<Entry>, e: Entry): seq<Entry> {
    if es == [] || es[|es| - 1].id <= e.id then es + [e]
    else Insert(es[..|es| - 1], e) + [es[|es| - 1]]
  }

  function SortById(es: seq<Entry>): seq<Entry> {
    if es == [] then [] else Insert(SortById(es[..|es| - 1]), es[|es| - 1])
  }

  function Load(files: map<string, seq<byte>>, name: string): Result<Publication, CoreError> {
    if name in files then ParsePublication(files[name]) else Err(StorageFailed)
  }

  function LoadEach(files: map<string, seq<byte>>, es: seq<Entry>): Result<seq<Publication>, CoreError> {
    if es == [] then Ok([])
    else
      var front := LoadEach(files, es[..|es| - 1]);
      if front.Err? then front
      else
        var last := Load(files, es[|es| - 1].name);
        if last.Err? then Err(StorageFailed) else Ok(front.value + [last.value])
  }

  function Slice<T>(s: seq<T>, offset: nat, limit: nat): (r: seq<T>)
    ensures |r| <= limit
  {
    if offset >= |s| then [] else if limit < |s| - offset then s[offset..offset + limit] else s[offset..]
  }

  /** A page, reading no file outside its window. */
  function PageOf(files: map<string, seq<byte>>, names: seq<string>, offset: nat, limit: nat): Result<Page, CoreError> {
    var entries := Entries(names);
    if entries.None? then Err(StorageFailed)
    else
      var records := LoadEach(files, Slice(SortById(entries.value), offset, limit));
      if records.Err? then Err(records.error)
      else Ok(Page(offset, limit, |entries.value|, records.value))
  }

  lemma SliceGrows<T>(s: seq<T>, offset: nat, limit: nat)
    requires offset < |s| && limit > 0
    ensures limit <= |s| - offset ==> Slice(s, offset, limit) == Slice(s, offset, limit - 1) + [s[offset + limit - 1]]
    ensures limit > |s| - offset ==> Slice(s, offset, limit) == Slice(s, offset, limit - 1)
  {
  }

  /** The window of records already in memory. */
  method WindowOf(records: seq<Publication>, offset: nat, limit: nat) returns (window: seq<Publication>)
    ensures window == Slice(records, offset, limit)
  {
    window := [];
    var index := offset;
    while index < |records| && |window| < limit
      invariant window == Slice(records, offset, index - offset) && |window| <= limit
      invariant offset <= index && (index == offset || index <= |records|)
      invariant |window| == index - offset
      decreases |records| - index
    {
      SliceGrows(records, offset, index - offset + 1);
      window := window + [records[index]];
      index := index + 1;
    }
  }

  method SortEntries(es: seq<Entry>) returns (sorted: seq<Entry>)
    ensures sorted == SortById(es)
  {
    sorted := [];
    for i := 0 to |es|
      invariant sorted == SortById(es[..i])
    {
      assert es[..i + 1][..i] == es[..i];
      sorted := Insert(sorted, es[i]);
    }
    assert es[..|es|] == es;
  }

  method EntriesOf(names: seq<string>) returns (r: Option<seq<Entry>>)
    ensures r == Entries(names)
  {
    var entries: seq<Entry> := [];
    for i := 0 to |names|
      invariant Entries(names[..i]) == Some(entries)
    {
      assert names[..i + 1][..i] == names[..i];
      var id := IdentifierOf(names[i]);
      if id.None? {
        EntriesFail(names, i + 1);
        return None;
      }
      entries := entries + [Entry(id.value, names[i])];
    }
    assert names[..|names|] == names;
    return Some(entries);
  }

  lemma LoadStep(files: map<string, seq<byte>>, sorted: seq<Entry>, offset: nat, limit: nat, index: nat)
    requires offset <= index < |sorted| && index - offset < limit
    ensures var before := LoadEach(files, Slice(sorted, offset, index - offset));
            var after := LoadEach(files, Slice(sorted, offset, index - offset + 1));
            var record := Load(files, sorted[index].name);
            && (before.Ok? && record.Ok? ==> after == Ok(before.value + [record.value]))
            && (before.Ok? && record.Err? ==> LoadEach(files, Slice(sorted, offset, limit)) == Err(StorageFailed))
  {
    hide Load;
    SliceGrows(sorted, offset, index - offset + 1);
    var window := Slice(sorted, offset, index - offset + 1);
    assert window[..|window| - 1] == Slice(sorted, offset, index - offset);
    if LoadEach(files, window) == Err(StorageFailed) {
      assert Slice(sorted, offset, limit)[..index - offset + 1] == window;
      LoadFails(files, Slice(sorted, offset, limit), index - offset + 1);
    }
  }

  method LoadWindow(files: map<string, seq<byte>>, sorted: seq<Entry>, offset: nat, limit: nat)
    returns (r: Result<seq<Publication>, CoreError>)
    ensures r == LoadEach(files, Slice(sorted, offset, limit))
  {
    hide LoadEach, Load;
    var records: seq<Publication> := [];
    var index := offset;
    assert LoadEach(files, Slice(sorted, offset, 0)) == Ok([]) by { NothingLoaded(files, Slice(sorted, offset, 0)); }
    while index < |sorted| && |records| < limit
      invariant offset <= index && (index == offset || index <= |sorted|)
      invariant |records| == index - offset <= limit
      invariant LoadEach(files, Slice(sorted, offset, index - offset)) == Ok(records)
      decreases |sorted| - index
    {
      LoadStep(files, sorted, offset, limit, index);
      var record := Load(files, sorted[index].name);
      if record.Err? {
        return Err(StorageFailed);
      }
      records := records + [record.value];
      index := index + 1;
    }
    assert Slice(sorted, offset, index - offset) == Slice(sorted, offset, limit);
    return Ok(records);
  }

  lemma NothingLoaded(files: map<string, seq<byte>>, es: seq<Entry>)
    requires es == []
    ensures LoadEach(files, es) == Ok([])
  {
  }

  method WindowOfFiles(files: map<string, seq<byte>>, names: seq<string>, offset: nat, limit: nat)
    returns (r: Result<Page, CoreError>)
    ensures r == PageOf(files, names, offset, limit)
  {
    var entries := EntriesOf(names);
    if entries.None? {
      return Err(StorageFailed);
    }
    var sorted := SortEntries(entries.value);
    SortKeepsSize(entries.value);
    var records := LoadWindow(files, sorted, offset, limit);
    if records.Err? {
      return Err(records.error);
    }
    return Ok(Page(offset, limit, |sorted|, records.value));
  }

  /** The entries of the page at this offset. */
  function WindowEntries(names: seq<string>, offset: nat, limit: nat): seq<Entry> {
    var entries := Entries(names);
    if entries.None? then [] else Slice(SortById(entries.value), offset, limit)
  }

  /** The same file, or none, under this name in both directories. */
  predicate SameFile(files: map<string, seq<byte>>, others: map<string, seq<byte>>, name: string) {
    (name in files <==> name in others) && (name in files ==> files[name] == others[name])
  }

  lemma {:induction false} LoadsSame(files: map<string, seq<byte>>, others: map<string, seq<byte>>, es: seq<Entry>)
    requires forall e | e in es :: SameFile(files, others, e.name)
    ensures LoadEach(files, es) == LoadEach(others, es)
  {
    if es != [] {
      var last := es[|es| - 1];
      assert last in es;
      LoadsSame(files, others, es[..|es| - 1]);
      assert Load(files, last.name) == Load(others, last.name);
      hide Load;
    }
  }

  /** A page depends on the files of its own window only: what the other files hold does not matter. */
  lemma PageReadsItsWindow(files: map<string, seq<byte>>, others: map<string, seq<byte>>, names: seq<string>,
                           offset: nat, limit: nat)
    requires forall e | e in WindowEntries(names, offset, limit) :: SameFile(files, others, e.name)
    ensures PageOf(files, names, offset, limit) == PageOf(others, names, offset, limit)
  {
    hide LoadEach;
    LoadsSame(files, others, WindowEntries(names, offset, limit));
  }

  lemma {:induction false} EntriesFail(names: seq<string>, i: nat)
    requires i <= |names| && Entries(names[..i]).None?
    ensures Entries(names).None?
  {
    if i < |names| {
      assert names[..|names| - 1][..i] == names[..i];
      EntriesFail(names[..|names| - 1], i);
    } else {
      assert names[..i] == names;
    }
  }

  lemma {:induction false} LoadFails(files: map<string, seq<byte>>, es: seq<Entry>, i: nat)
    requires i <= |es| && LoadEach(files, es[..i]) == Err(StorageFailed)
    ensures LoadEach(files, es) == Err(StorageFailed)
  {
    if i < |es| {
      assert es[..|es| - 1][..i] == es[..i];
      LoadFails(files, es[..|es| - 1], i);
    } else {
      assert es[..i] == es;
    }
  }

  lemma {:induction false} InsertSize(es: seq<Entry>, e: Entry)
    ensures |Insert(es, e)| == |es| + 1
  {
    if es != [] && es[|es| - 1].id > e.id {
      InsertSize(es[..|es| - 1], e);
    }
  }

  lemma {:induction false} SortKeepsSize(es: seq<Entry>)
    ensures |SortById(es)| == |es|
  {
    if es != [] {
      SortKeepsSize(es[..|es| - 1]);
      InsertSize(SortById(es[..|es| - 1]), es[|es| - 1]);
    }
  }

  // ----- the pages together -----

  type Publications = map<uint64, Publication>

  predicate NamesOneOf(name: string, publications: Publications) {
    var id := IdentifierOf(name);
    id.Some? && id.value in publications && name == PublicationName(id.value)
  }

  /**
   Each file holds the record of the publication it is named after, and `names` lists each file once, in any
   order.
   */
  ghost predicate Holds(files: map<string, seq<byte>>, names: seq<string>, publications: Publications) {
    && (forall id | id in publications ::
          && publications[id].names.publicationId == id && publications[id].Formed() && publications[id].Encodable()
          && PublicationName(id) in names
          && PublicationName(id) in files && files[PublicationName(id)] == PublicationLayout(publications[id]))
    && (forall i | 0 <= i < |names| :: NamesOneOf(names[i], publications))
    && (forall i, j | 0 <= i < j < |names| :: names[i] != names[j])
  }

  /** Every publication once, in strictly increasing order of identifiers. */
  ghost predicate IsCatalogue(all: seq<Publication>, publications: Publications) {
    && (forall i, j | 0 <= i < j < |all| :: all[i].names.publicationId < all[j].names.publicationId)
    && (forall i | 0 <= i < |all| ::
          all[i].names.publicationId in publications && publications[all[i].names.publicationId] == all[i])
    && (forall id | id in publications :: publications[id].names.publicationId == id && publications[id] in all)
  }

  ghost predicate Increasing(es: seq<Entry>) {
    forall i, j | 0 <= i < j < |es| :: es[i].id < es[j].id
  }

  ghost predicate DistinctIds(es: seq<Entry>) {
    forall i, j | 0 <= i < j < |es| :: es[i].id != es[j].id
  }

  lemma {:induction false} InsertIncreasing(es: seq<Entry>, e: Entry)
    requires Increasing(es) && forall x | x in es :: x.id != e.id
    ensures Increasing(Insert(es, e))
    ensures forall x :: x in Insert(es, e) <==> x in es || x == e
  {
    if es != [] && es[|es| - 1].id > e.id {
      var front, last := es[..|es| - 1], es[|es| - 1];
      InsertIncreasing(front, e);
      assert es == front + [last];
      forall x | x in Insert(front, e) ensures x.id < last.id {
      }
    }
  }

  lemma {:induction false} SortIncreasing(es: seq<Entry>)
    requires DistinctIds(es)
    ensures Increasing(SortById(es)) && forall x :: x in SortById(es) <==> x in es
  {
    if es != [] {
      var front, last := es[..|es| - 1], es[|es| - 1];
      assert es == front + [last];
      SortIncreasing(front);
      InsertIncreasing(SortById(front), last);
    }
  }

  lemma {:induction false} EntriesOfNames(names: seq<string>, publications: Publications)
    requires forall i | 0 <= i < |names| :: NamesOneOf(names[i], publications)
    ensures Entries(names).Some? && |Entries(names).value| == |names|
    ensures forall i | 0 <= i < |names| ::
              var e := Entries(names).value[i];
              IdentifierOf(names[i]) == Some(e.id) && e.name == names[i]
  {
    hide IdentifierOf, PublicationName;
    if names != [] {
      EntriesOfNames(names[..|names| - 1], publications);
    }
  }

  function RecordsAt(publications: Publications, es: seq<Entry>): seq<Publication>
    requires forall e | e in es :: e.id in publications
  {
    seq(|es|, i requires 0 <= i < |es| => publications[es[i].id])
  }

  lemma {:induction false} LoadsRecords(files: map<string, seq<byte>>, names: seq<string>, publications: Publications,
                                        es: seq<Entry>)
    requires Holds(files, names, publications)
    requires forall e | e in es :: e.id in publications && e.name == PublicationName(e.id)
    ensures LoadEach(files, es) == Ok(RecordsAt(publications, es))
  {
    hide PublicationName, Load, Holds;
    if es == [] {
      assert RecordsAt(publications, es) == [];
    } else {
      var front, last := es[..|es| - 1], es[|es| - 1];
      LoadsRecords(files, names, publications, front);
      LoadsRecord(files, names, publications, last);
      assert RecordsAt(publications, es) == RecordsAt(publications, front) + [publications[last.id]];
    }
  }

  lemma LoadsRecord(files: map<string, seq<byte>>, names: seq<string>, publications: Publications, e: Entry)
    requires Holds(files, names, publications) && e.id in publications && e.name == PublicationName(e.id)
    ensures Load(files, e.name) == Ok(publications[e.id])
  {
    hide ParsePublication, PublicationLayout, PublicationName;
    var layout := PublicationLayout(publications[e.id]);
    ParsePublicationLayout(publications[e.id], []);
    assert layout + [] == layout;
  }

  lemma RecordsOfWindow(publications: Publications, es: seq<Entry>, offset: nat, limit: nat)
    requires forall e | e in es :: e.id in publications
    ensures RecordsAt(publications, Slice(es, offset, limit)) == Slice(RecordsAt(publications, es), offset, limit)
  {
  }

  /** The entries of a directory, sorted, name every publication once. */
  ghost predicate Names(es: seq<Entry>, publications: Publications) {
    && Increasing(es)
    && (forall e | e in es :: e.id in publications && e.name == PublicationName(e.id))
    && (forall id | id in publications :: Entry(id, PublicationName(id)) in es)
  }

  lemma SortedEntries(files: map<string, seq<byte>>, names: seq<string>, publications: Publications)
    requires Holds(files, names, publications)
    ensures Entries(names).Some? && |Entries(names).value| == |names| == |SortById(Entries(names).value)|
    ensures Names(SortById(Entries(names).value), publications)
  {
    hide IdentifierOf, PublicationName, PublicationLayout, SortById, Entries;
    EntriesOfNames(names, publications);
    var es := Entries(names).value;
    SortIncreasing(es);
    SortKeepsSize(es);
    forall id | id in publications ensures Entry(id, PublicationName(id)) in es {
      var i :| 0 <= i < |names| && names[i] == PublicationName(id);
      IdentifierOfName(id);
      assert es[i] == Entry(id, PublicationName(id));
    }
  }

  lemma RecordsAreCatalogue(publications: Publications, es: seq<Entry>)
    requires Names(es, publications) && forall id | id in publications :: publications[id].names.publicationId == id
    ensures IsCatalogue(RecordsAt(publications, es), publications)
  {
    hide PublicationName;
    var all := RecordsAt(publications, es);
    assert forall i | 0 <= i < |all| :: all[i] == publications[es[i].id] && all[i].names.publicationId == es[i].id;
    hide RecordsAt;
    forall id | id in publications ensures publications[id] in all {
      var i :| 0 <= i < |es| && es[i] == Entry(id, PublicationName(id));
      assert all[i] == publications[id];
    }
  }

  /** A directory has a catalogue, with one record for each name. */
  lemma CatalogueExists(files: map<string, seq<byte>>, names: seq<string>, publications: Publications)
    returns (all: seq<Publication>)
    requires Holds(files, names, publications)
    ensures IsCatalogue(all, publications) && |all| == |names|
  {
    hide PublicationName, PublicationLayout, SortById, Entries, IdentifierOf;
    SortedEntries(files, names, publications);
    all := RecordsAt(publications, SortById(Entries(names).value));
    RecordsAreCatalogue(publications, SortById(Entries(names).value));
  }

  /** A page is the window of the whole sorted catalogue, whatever order the directory is listed in. */
  lemma PageIsWindow(files: map<string, seq<byte>>, names: seq<string>, publications: Publications,
                     all: seq<Publication>, offset: nat, limit: nat)
    requires Holds(files, names, publications) && IsCatalogue(all, publications)
    ensures PageOf(files, names, offset, limit) == Ok(Page(offset, limit, |all|, Slice(all, offset, limit)))
  {
    hide SortById, Entries, LoadEach, PublicationName, PublicationLayout, IdentifierOf, IsCatalogue;
    SortedEntries(files, names, publications);
    var es := SortById(Entries(names).value);
    RecordsAreCatalogue(publications, es);
    CatalogueUnique(RecordsAt(publications, es), all, publications);
    LoadsRecords(files, names, publications, Slice(es, offset, limit));
    RecordsOfWindow(publications, es, offset, limit);
  }

  lemma EmptyCatalogue(all: seq<Publication>, publications: Publications)
    requires IsCatalogue(all, publications)
    ensures all == [] <==> publications == map[]
  {
    if publications != map[] {
      var id :| id in publications;
      assert publications[id] in all;
    }
    if all != [] {
      assert all[0].names.publicationId in publications;
    }
  }

  lemma LastAgrees(a: seq<Publication>, b: seq<Publication>, publications: Publications)
    requires IsCatalogue(a, publications) && IsCatalogue(b, publications) && a != [] && b != []
    ensures a[|a| - 1] == b[|b| - 1]
  {
    var last, other := a[|a| - 1], b[|b| - 1];
    assert last.names.publicationId in publications && other.names.publicationId in publications;
    var i :| 0 <= i < |b| && b[i] == publications[last.names.publicationId];
    var j :| 0 <= j < |a| && a[j] == publications[other.names.publicationId];
  }

  /** There is only one catalogue of given publications. */
  lemma {:induction false} CatalogueUnique(a: seq<Publication>, b: seq<Publication>, publications: Publications)
    requires IsCatalogue(a, publications) && IsCatalogue(b, publications)
    ensures a == b
  {
    hide IsCatalogue;
    EmptyCatalogue(a, publications);
    EmptyCatalogue(b, publications);
    if publications != map[] {
      LastAgrees(a, b, publications);
      CatalogueWithoutLast(a, publications);
      CatalogueWithoutLast(b, publications);
      var last := a[|a| - 1];
      CatalogueUnique(a[..|a| - 1], b[..|b| - 1], publications - {last.names.publicationId});
      assert a == a[..|a| - 1] + [last] && b == b[..|b| - 1] + [last];
    }
  }

  lemma CatalogueWithoutLast(all: seq<Publication>, publications: Publications)
    requires IsCatalogue(all, publications) && all != []
    ensures IsCatalogue(all[..|all| - 1], publications - {all[|all| - 1].names.publicationId})
  {
    var n := |all| - 1;
    var rest := publications - {all[n].names.publicationId};
    forall id | id in rest ensures rest[id] in all[..n] {
      var i :| 0 <= i < |all| && all[i] == publications[id];
      assert i != n;
      assert all[..n][i] == rest[id];
    }
  }

  /** The pages at offsets 0, `limit`, twice `limit` and so on, each with its own listing of the directory. */
  function Pages(files: map<string, seq<byte>>, listings: seq<seq<string>>, limit: nat)
    : Result<seq<Publication>, CoreError>
  {
    if listings == [] then Ok([])
    else
      var k := |listings| - 1;
      var front, last := Pages(files, listings[..k], limit), PageOf(files, listings[k], k * limit, limit);
      if front.Err? then front else if last.Err? then Err(last.error) else Ok(front.value + last.value.records)
  }

  lemma SliceFollows<T>(s: seq<T>, from: nat, limit: nat)
    ensures (if from <= |s| then s[..from] else s) + Slice(s, from, limit)
            == if from + limit <= |s| then s[..from + limit] else s
  {
  }

  lemma OneMore(k: nat, limit: nat)
    ensures (k + 1) * limit == k * limit + limit
  {
  }

  lemma {:induction false} PagesArePrefix(files: map<string, seq<byte>>, listings: seq<seq<string>>, limit: nat,
                                          publications: Publications, all: seq<Publication>)
    requires forall names | names in listings :: Holds(files, names, publications)
    requires IsCatalogue(all, publications)
    ensures Pages(files, listings, limit) == Ok(if |listings| * limit <= |all| then all[..|listings| * limit] else all)
  {
    hide PageOf, Holds, IsCatalogue, Slice;
    if listings != [] {
      var k := |listings| - 1;
      PagesArePrefix(files, listings[..k], limit, publications, all);
      PageIsWindow(files, listings[k], publications, all, k * limit, limit);
      SliceFollows(all, k * limit, limit);
      OneMore(k, limit);
    }
  }

  /**
   For any limit of at least one, enough pages one after another give every publication exactly
   once, in strictly increasing order, and every page states the same total.
   */
  lemma PagesAreTheCatalogue(files: map<string, seq<byte>>, listings: seq<seq<string>>, limit: nat,
                             publications: Publications)
    requires limit >= 1 && listings != [] && forall names | names in listings :: Holds(files, names, publications)
    requires |listings| * limit >= |listings[0]|
    ensures Pages(files, listings, limit).Ok? && IsCatalogue(Pages(files, listings, limit).value, publications)
    ensures forall k | 0 <= k < |listings| ::
              && PageOf(files, listings[k], k * limit, limit).Ok?
              && PageOf(files, listings[k], k * limit, limit).value.total == |Pages(files, listings, limit).value|
  {
    hide PageOf, Holds, IsCatalogue, Slice;
    var all := CatalogueExists(files, listings[0], publications);
    PagesArePrefix(files, listings, limit, publications, all);
    assert all[..|all|] == all;
    forall k | 0 <= k < |listings|
      ensures PageOf(files, listings[k], k * limit, limit).Ok?
        && PageOf(files, listings[k], k * limit, limit).value.total == |all|
    {
      PageIsWindow(files, listings[k], publications, all, k * limit, limit);
    }
  }
}
