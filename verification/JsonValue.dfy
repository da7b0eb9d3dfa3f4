/** JSON values as the library stores them. A `string` stands for a std::string, one char for
    one byte. Objects are std::map, so the entries are kept in increasing key order. */
module JsonValue {

  /** What the library reports by throwing; the names follow json_err_num. */
  datatype Error = InvalidChar | InvalidString | DuplicateKey | UnsupportedType | UnexpectedEnd | BadEscapedChar

  /** A decimal keeps the text it was read from; how long double rounds it is not modelled. */
  datatype Json =
    | JNull
    | JBool(b: bool)
    | JNumber(n: int)
    | JDecimal(text: string)
    | JString(s: string)
    | JArray(items: seq<Json>)
    | JObject(entries: seq<Entry>)

  datatype Entry = Entry(key: string, value: Json)

  const INT64_MAX: int := 0x7FFF_FFFF_FFFF_FFFF
  const INT64_MIN: int := -0x8000_0000_0000_0000

  predicate IsSpace(c: char) {
    c == '\r' || c == '\n' || c == '\t' || c == ' '
  }

  predicate AllSpace(s: string) {
    forall k :: 0 <= k < |s| ==> IsSpace(s[k])
  }

  predicate IsDigit(c: char) {
    '0' <= c <= '9'
  }

  /** std::string comparison: lexicographic on unsigned bytes. */
  predicate Less(a: string, b: string) {
    b != "" && (a == "" || a[0] < b[0] || (a[0] == b[0] && Less(a[1..], b[1..])))
  }

  predicate HasKey(es: seq<Entry>, k: string) {
    exists i :: 0 <= i < |es| && es[i].key == k
  }

  /** Where std::map puts a new key. */
  function Insert(es: seq<Entry>, k: string, v: Json): seq<Entry> {
    if es == [] || Less(k, es[0].key) then [Entry(k, v)] + es
    else [es[0]] + Insert(es[1..], k, v)
  }

  ghost predicate Sorted(es: seq<Entry>) {
    forall i, j :: 0 <= i < j < |es| ==> Less(es[i].key, es[j].key)
  }

  /** The one ends at k, or has the smaller character there, and before it they are the same. */
  predicate DiffersAt(a: string, b: string, k: nat) {
    k <= |a| && k < |b| && a[..k] == b[..k] && (k == |a| || a[k] < b[k])
  }

  lemma SameHead(a: string, b: string, k: nat)
    requires k <= |a| && k <= |b| && a[..k] == b[..k]
    ensures k > 0 ==> a[0] == b[0]
  {
    if k > 0 { assert a[..k][0] == b[..k][0]; }
  }

  /** A text is less than another exactly when it is a beginning of it, or has the smaller character where they first
      differ. */
  lemma {:induction false} LessMeans(a: string, b: string)
    ensures Less(a, b) <==> exists k: nat :: DiffersAt(a, b, k)
  {
    if a == "" || b == "" || a[0] != b[0] {
      assert b != "" && (a == "" || a[0] < b[0]) ==> DiffersAt(a, b, 0);
      forall k: nat | DiffersAt(a, b, k) ensures k == 0 {
        SameHead(a, b, k);
      }
    } else {
      LessMeans(a[1..], b[1..]);
      if k: nat :| DiffersAt(a[1..], b[1..], k) {
        assert a[..k + 1] == [a[0]] + a[1..][..k] && b[..k + 1] == [b[0]] + b[1..][..k];
        assert DiffersAt(a, b, k + 1);
      }
      forall k: nat | DiffersAt(a, b, k) ensures k > 0 && DiffersAt(a[1..], b[1..], k - 1) {
        assert a[1..][..k - 1] == a[..k][1..] && b[1..][..k - 1] == b[..k][1..];
      }
    }
  }

  lemma {:induction false} LessAsymmetric(a: string, b: string)
    requires Less(a, b)
    ensures !Less(b, a) && a != b
  {
    if a != "" && a[0] == b[0] {
      LessAsymmetric(a[1..], b[1..]);
    }
  }

  lemma {:induction false} LessTransitive(a: string, b: string, c: string)
    requires Less(a, b) && Less(b, c)
    ensures Less(a, c)
  {
    if a != "" && a[0] == b[0] && b[0] == c[0] {
      LessTransitive(a[1..], b[1..], c[1..]);
    }
  }

  lemma {:induction false} LessTotal(a: string, b: string)
    ensures Less(a, b) || Less(b, a) || a == b
  {
    if a != "" && b != "" && a[0] == b[0] {
      LessTotal(a[1..], b[1..]);
      assert a == [a[0]] + a[1..];
      assert b == [b[0]] + b[1..];
    }
  }

  /** Insertion adds the entry and nothing else. */
  lemma {:induction false} InsertElements(es: seq<Entry>, k: string, v: Json)
    ensures multiset(Insert(es, k, v)) == multiset(es) + multiset{Entry(k, v)}
    ensures forall j :: 0 <= j < |Insert(es, k, v)| ==> Insert(es, k, v)[j] == Entry(k, v) || Insert(es, k, v)[j] in es
  {
    if es != [] && !Less(k, es[0].key) {
      InsertElements(es[1..], k, v);
      assert es == [es[0]] + es[1..];
    }
  }

  /** Inserting a new key keeps the entries sorted, and adds exactly that entry. */
  lemma {:induction false} InsertSorted(es: seq<Entry>, k: string, v: Json)
    requires Sorted(es) && !HasKey(es, k)
    ensures Sorted(Insert(es, k, v))
    ensures multiset(Insert(es, k, v)) == multiset(es) + multiset{Entry(k, v)}
  {
    InsertElements(es, k, v);
    if es == [] {
    } else if Less(k, es[0].key) {
      forall j | 0 < j < |es| ensures Less(k, es[j].key) { LessTransitive(k, es[0].key, es[j].key); }
    } else {
      var t := es[1..];
      forall i | 0 <= i < |t| ensures t[i].key != k { assert t[i] == es[i + 1]; }
      InsertSorted(t, k, v);
      InsertElements(t, k, v);
      LessTotal(k, es[0].key);
      assert es[0].key != k;
      FirstIsLeast(es[0], Insert(t, k, v), t, Entry(k, v));
    }
  }

  lemma FirstIsLeast(first: Entry, r: seq<Entry>, t: seq<Entry>, e: Entry)
    requires Sorted(r) && Less(first.key, e.key) && forall j :: 0 <= j < |t| ==> Less(first.key, t[j].key)
    requires forall j :: 0 <= j < |r| ==> r[j] == e || r[j] in t
    ensures Sorted([first] + r)
  {
  }

  /** A key above all the others goes last. */
  lemma {:induction false} InsertLast(es: seq<Entry>, k: string, v: Json)
    requires forall i :: 0 <= i < |es| ==> Less(es[i].key, k)
    ensures !HasKey(es, k) && Insert(es, k, v) == es + [Entry(k, v)]
  {
    forall i | 0 <= i < |es| ensures es[i].key != k && !Less(k, es[i].key) { LessAsymmetric(es[i].key, k); }
    if es != [] {
      InsertLast(es[1..], k, v);
    }
  }
}
