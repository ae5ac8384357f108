/**
 * The document model of md_browser.py: a defaultdict from category name to
 * {"links": [...], "entries": {subheading: body}}, kept in insertion order.
 * The category key is None for links met before any "## " heading.
 */
module MdDoc {
  import opened Wrappers
  import opened Assoc
  import opened Bookmark

  /** The value the defaultdict creates for a new category. */
  datatype Section = Section(links: seq<Link>, entries: Assoc<string, string>)

  const EmptySection := Section([], [])

  type Doc = Assoc<Option<string>, Section>

  /** data[k] as read through the defaultdict (an absent key reads as an empty section). */
  function Sec(d: Doc, k: Option<string>): Section {
    GetOr(d, k, EmptySection)
  }

  /** data[k]["entries"].get(h). */
  function Entry(d: Doc, k: Option<string>, h: string): Option<string> {
    Find(Sec(d, k).entries, h)
  }

  /** The subheadings of category k, in order. */
  function EntryKeys(d: Doc, k: Option<string>): seq<string> {
    Keys(Sec(d, k).entries)
  }

  /** Distinct category keys, and distinct subheadings within every category. */
  predicate Distinct(d: Doc) {
    DistinctKeys(d) && forall k :: k in Keys(d) ==> DistinctKeys(Sec(d, k).entries)
  }

  /** data[k]["links"].append(l): creates category k at the end when it is new. */
  function AppendLink(d: Doc, k: Option<string>, l: Link): Doc {
    var s := Sec(d, k);
    Put(d, k, s.(links := s.links + [l]))
  }

  /** data[k]["entries"][h] = b, creating category k and subheading h at the end when new. */
  function StoreEntry(d: Doc, k: Option<string>, h: string, b: string): Doc {
    var s := Sec(d, k);
    Put(d, k, s.(entries := Put(s.entries, h, b)))
  }

  /** del data[k]["entries"][h]. */
  function RemoveEntry(d: Doc, k: Option<string>, h: string): Doc {
    var s := Sec(d, k);
    Put(d, k, s.(entries := Remove(s.entries, h)))
  }

  // ---------------------------------------------------------------- lemmas

  /**
   * Appending a link adds it at the end of k's links, keeps k's entries and
   * every other category, and creates k at the end when it is new.
   */
  lemma AppendLinkSpec(d: Doc, k: Option<string>, l: Link)
    ensures Sec(AppendLink(d, k, l), k).links == Sec(d, k).links + [l]
    ensures Sec(AppendLink(d, k, l), k).entries == Sec(d, k).entries
    ensures forall k' :: k' != k ==> Find(AppendLink(d, k, l), k') == Find(d, k')
    ensures Keys(AppendLink(d, k, l)) == if k in Keys(d) then Keys(d) else Keys(d) + [k]
  {
    var s := Sec(d, k);
    PutFind(d, k, s.(links := s.links + [l]));
    PutKeys(d, k, s.(links := s.links + [l]));
  }

  /**
   * Storing a body replaces k's section by one whose entries have h set,
   * keeps k's links and every other category, and creates k at the end when new.
   */
  lemma StoreEntrySection(d: Doc, k: Option<string>, h: string, b: string)
    ensures Sec(StoreEntry(d, k, h, b), k) == Sec(d, k).(entries := Put(Sec(d, k).entries, h, b))
    ensures Sec(StoreEntry(d, k, h, b), k).links == Sec(d, k).links
    ensures forall k' :: k' != k ==> Find(StoreEntry(d, k, h, b), k') == Find(d, k')
    ensures Keys(StoreEntry(d, k, h, b)) == if k in Keys(d) then Keys(d) else Keys(d) + [k]
  {
    var s := Sec(d, k);
    PutFind(d, k, s.(entries := Put(s.entries, h, b)));
    PutKeys(d, k, s.(entries := Put(s.entries, h, b)));
  }

  /**
   * Storing a body sets that one entry of k: every other entry of k stays,
   * and h is added at the end of k's subheadings when new (with
   * StoreEntrySection: k's links and every other category stay too).
   */
  lemma StoreEntrySpec(d: Doc, k: Option<string>, h: string, b: string)
    ensures Entry(StoreEntry(d, k, h, b), k, h) == Some(b)
    ensures forall h' :: h' != h ==> Entry(StoreEntry(d, k, h, b), k, h') == Entry(d, k, h')
    ensures EntryKeys(StoreEntry(d, k, h, b), k)
      == if h in EntryKeys(d, k) then EntryKeys(d, k) else EntryKeys(d, k) + [h]
  {
    var es := Sec(d, k).entries;
    assert Sec(StoreEntry(d, k, h, b), k).entries == Put(es, h, b) by {
      StoreEntrySection(d, k, h, b);
    }
    PutFind(es, h, b);
    PutKeys(es, h, b);
  }

  /**
   * Deleting an entry of an existing category removes that one entry: every
   * other entry, every link, every category and every order stay.
   */
  lemma RemoveEntrySpec(d: Doc, k: Option<string>, h: string)
    requires k in Keys(d)
    ensures Entry(RemoveEntry(d, k, h), k, h) == None
    ensures forall h' :: h' != h ==> Entry(RemoveEntry(d, k, h), k, h') == Entry(d, k, h')
    ensures Sec(RemoveEntry(d, k, h), k).links == Sec(d, k).links
    ensures forall k' :: k' != k ==> Find(RemoveEntry(d, k, h), k') == Find(d, k')
    ensures Keys(RemoveEntry(d, k, h)) == Keys(d)
    ensures EntryKeys(RemoveEntry(d, k, h), k) == Without(EntryKeys(d, k), h)
  {
    var s := Sec(d, k);
    var s' := s.(entries := Remove(s.entries, h));
    PutFind(d, k, s');
    PutKeys(d, k, s');
    assert Sec(RemoveEntry(d, k, h), k) == s';
    RemoveFind(s.entries, h);
    RemoveKeys(s.entries, h);
  }

  /** Appending a link keeps category names and subheadings distinct. */
  lemma AppendLinkDistinct(d: Doc, k: Option<string>, l: Link)
    requires Distinct(d)
    ensures Distinct(AppendLink(d, k, l))
  {
    var s := Sec(d, k);
    DistinctPut(d, k, s.(links := s.links + [l]));
  }

  /** Storing a body keeps category names and subheadings distinct. */
  lemma StoreEntryDistinct(d: Doc, k: Option<string>, h: string, b: string)
    requires Distinct(d)
    ensures Distinct(StoreEntry(d, k, h, b))
  {
    var s := Sec(d, k);
    PutDistinct(s.entries, h, b);
    DistinctPut(d, k, s.(entries := Put(s.entries, h, b)));
  }

  /** Deleting an entry keeps category names and subheadings distinct. */
  lemma RemoveEntryDistinct(d: Doc, k: Option<string>, h: string)
    requires Distinct(d)
    ensures Distinct(RemoveEntry(d, k, h))
  {
    var s := Sec(d, k);
    RemoveDistinct(s.entries, h);
    DistinctPut(d, k, s.(entries := Remove(s.entries, h)));
  }

  /** Replacing one section by one with distinct subheadings keeps the document distinct. */
  lemma DistinctPut(d: Doc, k: Option<string>, s: Section)
    requires Distinct(d) && DistinctKeys(s.entries)
    ensures Distinct(Put(d, k, s))
  {
    var r := Put(d, k, s);
    PutDistinct(d, k, s);
    PutFind(d, k, s);
    PutKeys(d, k, s);
    forall k' | k' in Keys(r) ensures DistinctKeys(Sec(r, k').entries) {
      if k' != k {
        assert Find(r, k') == Find(d, k');
      }
    }
  }
}
