/**
 * Records of the internal `__consumer_offsets` topic: validation, message keys, candidate identities and group/topic
 * matching (pkg/coordinator/metadata_record.go, coordinator_offset.go).
 */
module MetadataRecord {
  import opened Common

  /** Partition -> next offset; the canonical form of a list of offset items. */
  type Offsets = map<int, u64>

  datatype TopicSnapshot = TopicSnapshot(revision: u64, offsets: Offsets)

  datatype Record =
    | Registration(group: string, topic: string, partitionCount: int, epoch: u64, initial: map<string, TopicSnapshot>)
    | OffsetSnapshot(group: string, topic: string, epoch: u64, revision: u64, offsets: Offsets)
    | Tombstone(group: string, topic: string, epoch: u64)
  {
    predicate Lifecycle() { Registration? || Tombstone? }
  }

  // ---------------------------------------------------------------------------------------------
  // Topic patterns

  /** `*` stands for any run of characters and `?` for one; neither matches a line feed. */
  predicate Glob(pattern: string, topic: string)
    decreases |pattern| + |topic|
  {
    if pattern == "" then topic == ""
    else if pattern[0] == '*' then
      Glob(pattern[1..], topic) || (topic != "" && topic[0] != '\n' && Glob(pattern, topic[1..]))
    else
      topic != "" && (if pattern[0] == '?' then topic[0] != '\n' else topic[0] == pattern[0])
      && Glob(pattern[1..], topic[1..])
  }

  predicate TopicMatches(pattern: string, topic: string) {
    pattern == topic || (('*' in pattern || '?' in pattern) && Glob(pattern, topic))
  }

  /** What one character of a pattern stands for. */
  ghost predicate StandsFor(c: char, part: string) {
    if c == '*' then '\n' !in part
    else if c == '?' then |part| == 1 && part[0] != '\n'
    else part == [c]
  }

  ghost function Joined(parts: seq<string>): string {
    if parts == [] then "" else parts[0] + Joined(parts[1..])
  }

  /** The topic falls into parts, one for each character of the pattern. */
  ghost predicate FallsInto(pattern: string, topic: string, parts: seq<string>) {
    |parts| == |pattern| && Joined(parts) == topic && forall i | 0 <= i < |parts| :: StandsFor(pattern[i], parts[i])
  }

  lemma {:induction false} GlobFallsApart(pattern: string, topic: string) returns (parts: seq<string>)
    requires Glob(pattern, topic)
    ensures FallsInto(pattern, topic, parts)
    decreases |pattern| + |topic|
  {
    if pattern == "" {
      parts := [];
    } else if pattern[0] == '*' && !Glob(pattern[1..], topic) {
      var rest := GlobFallsApart(pattern, topic[1..]);
      parts := rest[0 := [topic[0]] + rest[0]];
      assert parts[1..] == rest[1..] && topic == [topic[0]] + topic[1..];
    } else {
      var n := if pattern[0] == '*' then 0 else 1;
      var rest := GlobFallsApart(pattern[1..], topic[n..]);
      parts := [topic[..n]] + rest;
      assert parts[1..] == rest && topic == topic[..n] + topic[n..];
      forall i | 0 <= i < |parts| ensures StandsFor(pattern[i], parts[i]) {
        if i > 0 { assert pattern[i] == pattern[1..][i - 1] && parts[i] == rest[i - 1]; }
      }
    }
  }

  lemma {:induction false} PartsGlob(pattern: string, topic: string, parts: seq<string>)
    requires FallsInto(pattern, topic, parts)
    ensures Glob(pattern, topic)
    decreases |pattern| + |topic|
  {
    if pattern != "" {
      var first, rest := parts[0], parts[1..];
      assert topic == first + Joined(rest) && StandsFor(pattern[0], first);
      if pattern[0] == '*' && first != "" {
        var less := parts[0 := first[1..]];
        assert less[1..] == rest && topic[1..] == first[1..] + Joined(rest) && topic[0] == first[0];
        PartsGlob(pattern, topic[1..], less);
      } else {
        assert forall i | 0 <= i < |rest| :: StandsFor(pattern[1..][i], rest[i]) by {
          forall i | 0 <= i < |rest| ensures StandsFor(pattern[1..][i], rest[i]) {
            assert rest[i] == parts[i + 1] && pattern[1..][i] == pattern[i + 1];
          }
        }
        assert topic[|first|..] == Joined(rest);
        PartsGlob(pattern[1..], topic[|first|..], rest);
      }
    }
  }

  lemma {:induction false} PlainGlob(pattern: string, topic: string)
    requires Glob(pattern, topic) && '*' !in pattern && '?' !in pattern
    ensures topic == pattern
  {
    if pattern != "" {
      PlainGlob(pattern[1..], topic[1..]);
      assert pattern == [pattern[0]] + pattern[1..] && topic == [topic[0]] + topic[1..];
    }
  }

  /** A topic matches a pattern exactly if it is the pattern or falls into parts its characters stand for. */
  lemma TopicMatchesMeans(pattern: string, topic: string)
    ensures TopicMatches(pattern, topic) <==> pattern == topic || exists parts :: FallsInto(pattern, topic, parts)
  {
    if Glob(pattern, topic) {
      var parts := GlobFallsApart(pattern, topic);
      if '*' !in pattern && '?' !in pattern { PlainGlob(pattern, topic); }
    }
    if parts :| FallsInto(pattern, topic, parts) { PartsGlob(pattern, topic, parts); }
  }

  // ---------------------------------------------------------------------------------------------
  // Validation

  predicate PartitionsBelow(offsets: Offsets, count: int) {
    forall p | p in offsets :: 0 <= p < count
  }

  predicate ValidRecord(r: Record) {
    r.group != "" && r.epoch != 0 &&
    match r
    case Registration(_, topic, count, _, initial) =>
      && topic != "" && count > 0
      && forall t | t in initial :: t != "" && TopicMatches(topic, t) && PartitionsBelow(initial[t].offsets, count)
    case OffsetSnapshot(_, topic, _, revision, offsets) =>
      topic != "" && revision != 0 && offsets != map[] && forall p | p in offsets :: p >= 0
    case Tombstone(_, _, _) => true
  }

  /** What start-up may rely on of a record it accepts. */
  lemma ValidRecordMeans(r: Record)
    ensures ValidRecord(r) ==> r.group != "" && r.epoch > 0
    ensures r.Tombstone? && r.group != "" && r.epoch > 0 ==> ValidRecord(r)
    ensures r.OffsetSnapshot? ==>
              (ValidRecord(r) <==>
                 (r.group != "" && r.topic != "" && r.epoch > 0 && r.revision > 0 && r.offsets != map[]
                  && forall p | p in r.offsets :: p >= 0))
    ensures r.Registration? ==>
              (ValidRecord(r) <==>
                 (r.group != "" && r.topic != "" && r.epoch > 0 && r.partitionCount > 0
                  && forall t | t in r.initial ::
                       t != "" && TopicMatches(r.topic, t)
                       && forall p | p in r.initial[t].offsets :: 0 <= p < r.partitionCount))
  {
  }

  // ---------------------------------------------------------------------------------------------
  // Keys and identities. SHA-256 is taken to be injective, so a digest is its argument.

  const NUL: char := '\0'

  /** `group + "\x00" + topic`. */
  function Join(group: string, topic: string): string {
    group + [NUL] + topic
  }

  datatype Key = GroupKey(identity: string) | OffsetKey(identity: string)

  /** The compaction key of a record. */
  function RecordKey(r: Record): Key {
    if r.OffsetSnapshot? then OffsetKey(Join(r.group, r.topic)) else GroupKey(r.group)
  }

  /** `%s\x00%s\x00%020d\x00%020d`: the two numbers have fixed width, so only the names can run together. */
  datatype Identity = Identity(names: string, epoch: u64, revision: u64)

  function RecordIdentity(r: Record): Identity
    requires r.OffsetSnapshot?
  {
    Identity(Join(r.group, r.topic), r.epoch, r.revision)
  }

  /** (group, topic) pairs whose joined forms differ. */
  ghost predicate Apart(pairs: set<(string, string)>) {
    forall x, y | x in pairs && y in pairs && Join(x.0, x.1) == Join(y.0, y.1) :: x == y
  }

  lemma LastNul(g: string, t: string, h: string, u: string)
    requires Join(g, t) == Join(h, u) && |g| < |h|
    ensures NUL in t
  {
    assert Join(g, t)[|h|] == NUL == t[|h| - |g| - 1];
  }

  /** Topics without a NUL keep all pairs apart, whatever the groups are called: the join splits at its last NUL. */
  lemma NulFreeTopicsAreApart(pairs: set<(string, string)>)
    requires forall x | x in pairs :: NUL !in x.1
    ensures Apart(pairs)
  {
    forall x, y | x in pairs && y in pairs && Join(x.0, x.1) == Join(y.0, y.1) ensures x == y {
      if |x.0| < |y.0| { LastNul(x.0, x.1, y.0, y.1); }
      if |y.0| < |x.0| { LastNul(y.0, y.1, x.0, x.1); }
      assert x.0 == Join(x.0, x.1)[..|x.0|] && y.0 == Join(y.0, y.1)[..|y.0|];
      assert x.1 == Join(x.0, x.1)[|x.0| + 1..] && y.1 == Join(y.0, y.1)[|y.0| + 1..];
    }
  }

  /** The characters of a topic name. */
  predicate PortableChar(c: char) {
    'a' <= c <= 'z' || 'A' <= c <= 'Z' || '0' <= c <= '9' || c == '.' || c == '_' || c == '-' || c == '='
  }

  const MAX_TOPIC_NAME := 249

  /** Letters, digits and four signs, at most 249 of them, and none of the two names a file system takes for itself. */
  predicate PortableName(name: string) {
    && 0 < |name| < 250 && name !in {".", ".."}
    && forall c | c in name :: 'a' <= c <= 'z' || 'A' <= c <= 'Z' || '0' <= c <= '9' || c in {'.', '_', '-', '='}
  }

  /** `topic.ValidateName`, which every topic passes before it exists. */
  method ValidateName(name: string) returns (ok: bool)
    ensures ok <==> PortableName(name)
  {
    if name == "" || |name| > MAX_TOPIC_NAME || name == "." || name == ".." { return false; }
    for i := 0 to |name|
      invariant forall j | 0 <= j < i :: PortableChar(name[j])
    {
      if !PortableChar(name[i]) { assert name[i] in name; return false; }
    }
    return true;
  }

  /** A topic that exists is no pattern: it matches itself only, and has no NUL. */
  lemma PortableMatchesItself(pattern: string, topic: string)
    requires PortableName(pattern) && TopicMatches(pattern, topic)
    ensures topic == pattern && NUL !in topic
  {
    assert !PortableChar('*') && !PortableChar('?') && !PortableChar(NUL);
  }
}
