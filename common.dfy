/** Option, the stand-in for a null QImage, an unreadable file or an absent value. */
module Wrappers {
  datatype Option<+T> = None | Some(value: T)
}

/** Sizes and decoded images, as the Qt types QSize and QImage are used here. */
module Media {
  /** A width and a height, as QSize holds them. */
  datatype Size = Size(width: int, height: int) {
    /** QSize::isValid: neither dimension is negative. */
    predicate IsValid() { width >= 0 && height >= 0 }
  }

  /** A decoded, non-null image; only its dimensions are kept. */
  datatype Image = Image(size: Size)
}

/**
 * The JSON values the two persisted records are made of, with the
 * conversions QJsonValue applies when a value of the wrong type is read.
 */
module Json {
  datatype Value =
    | Null
    | Bool(b: bool)
    | Number(x: real)
    | Str(s: string)
    | Array(items: seq<Value>)
    | Object(members: map<string, Value>)

  /** QJsonValue::toBool(): false unless the value is the boolean true. */
  function AsBool(v: Value): bool {
    v.Bool? && v.b
  }

  /** QJsonValue::toDouble(): 0 unless the value is a number. */
  function AsDouble(v: Value): real {
    if v.Number? then v.x else 0.0
  }

  /** QJsonValue::toString(): the empty string unless the value is a string. */
  function AsString(v: Value): string {
    if v.Str? then v.s else ""
  }

  /** QJsonValue::toObject(): the empty object unless the value is an object. */
  function AsObject(v: Value): map<string, Value> {
    if v.Object? then v.members else map[]
  }

  /** obj[key] on a QJsonObject: a missing key reads as a null value. */
  function Member(obj: map<string, Value>, key: string): Value {
    if key in obj then obj[key] else Null
  }

  /** What QJsonDocument::fromJson makes of a file's bytes. */
  datatype Document = Malformed | Parsed(root: Value)

  /** QJsonDocument::object(): the top-level object, or empty when there is none. */
  function RootObject(d: Document): map<string, Value> {
    if d.Parsed? then AsObject(d.root) else map[]
  }

  /** A record file: Unopenable when QFile::open fails (missing or unreadable). */
  datatype File = Unopenable | Stored(document: Document)

  /** The file QFile::open(WriteOnly) plus QJsonDocument(obj).toJson() leaves behind. */
  function Written(obj: map<string, Value>): File {
    Stored(Parsed(Object(obj)))
  }
}

/**
 * An insertion sort over a total preorder, standing for std::sort with a
 * comparator and for QStringList::sort.
 */
module Sorting {
  /** Every two elements are comparable, and the comparison is transitive. */
  ghost predicate TotalPreorder<T(!new)>(le: (T, T) -> bool) {
    && (forall a, b :: le(a, b) || le(b, a))
    && (forall a, b, c :: le(a, b) && le(b, c) ==> le(a, c))
  }

  predicate SortedBy<T>(s: seq<T>, le: (T, T) -> bool) {
    forall i, j :: 0 <= i < j < |s| ==> le(s[i], s[j])
  }

  /** No element occurs twice. */
  predicate Distinct<T(==)>(s: seq<T>) {
    forall i, j :: 0 <= i < j < |s| ==> s[i] != s[j]
  }

  function Insert<T(!new)>(x: T, s: seq<T>, le: (T, T) -> bool): (r: seq<T>)
    ensures multiset(r) == multiset(s) + multiset{x}
  {
    if s == [] then [x]
    else if le(x, s[0]) then [x] + s
    else
      assert s == [s[0]] + s[1..];
      [s[0]] + Insert(x, s[1..], le)
  }

  /** Inserting into a sorted sequence keeps it sorted. */
  lemma {:induction false} InsertSorted<T(!new)>(x: T, s: seq<T>, le: (T, T) -> bool)
    requires TotalPreorder(le) && SortedBy(s, le)
    ensures SortedBy(Insert(x, s, le), le)
  {
    if s != [] && !le(x, s[0]) {
      var t := Insert(x, s[1..], le);
      assert le(s[0], x);
      assert SortedBy(s[1..], le);
      InsertSorted(x, s[1..], le);
      InsertLowerBound(s[0], x, s[1..], le);
      assert Insert(x, s, le) == [s[0]] + t;
    } else if s != [] {
      assert forall k :: 0 <= k < |s| ==> le(s[0], s[k]);
    }
  }

  /** A lower bound of x and of every element of s bounds every element after inserting x. */
  lemma {:induction false} InsertLowerBound<T(!new)>(y: T, x: T, s: seq<T>, le: (T, T) -> bool)
    requires le(y, x) && forall k :: 0 <= k < |s| ==> le(y, s[k])
    ensures forall k :: 0 <= k < |Insert(x, s, le)| ==> le(y, Insert(x, s, le)[k])
  {
    if s != [] && !le(x, s[0]) {
      InsertLowerBound(y, x, s[1..], le);
      assert Insert(x, s, le) == [s[0]] + Insert(x, s[1..], le);
    }
  }

  /** The input rearranged into ascending order. */
  function InsertionSort<T(!new)>(s: seq<T>, le: (T, T) -> bool): (r: seq<T>)
    requires TotalPreorder(le)
    ensures SortedBy(r, le)
    ensures multiset(r) == multiset(s)
  {
    if s == [] then []
    else
      assert s == [s[0]] + s[1..];
      var t := InsertionSort(s[1..], le);
      InsertSorted(s[0], t, le);
      Insert(s[0], t, le)
  }

  /** Two positions holding the same element make it occur twice. */
  lemma RepeatedTwice<T>(s: seq<T>, i: nat, j: nat)
    requires i < j < |s| && s[i] == s[j]
    ensures multiset(s)[s[i]] >= 2
  {
    assert s == s[..j] + s[j..];
    assert s[i] == s[..j][i];
    assert s[j] == s[j..][0];
  }

  /** A sequence without repetitions holds each element at most once. */
  lemma {:induction false} DistinctOnce<T>(s: seq<T>, x: T)
    requires Distinct(s)
    ensures multiset(s)[x] <= 1
  {
    if s != [] {
      assert s == [s[0]] + s[1..];
      DistinctOnce(s[1..], x);
      if x == s[0] {
        assert x !in s[1..];
      }
    }
  }

  /** Rearranging a sequence without repetitions cannot create one. */
  lemma DistinctPermutation<T>(a: seq<T>, b: seq<T>)
    requires Distinct(a) && multiset(a) == multiset(b)
    ensures Distinct(b)
  {
    forall i, j | 0 <= i < j < |b| ensures b[i] != b[j] {
      if b[i] == b[j] {
        RepeatedTwice(b, i, j);
        DistinctOnce(a, b[i]);
      }
    }
  }
}
