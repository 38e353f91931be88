/**
 The text form of access control entries: comma-separated entries of the form
 tag:[qualifier][:permissions], as the update tool parses them.
 */
module AclText {
  import opened Options
  import opened Acl

  const MAX_ENTRIES: nat := 10000

  /** strchr(): the first place of `c`. */
  function IndexOf(s: string, c: char, from: nat := 0): (r: int)
    requires from <= |s|
    ensures r == -1 || from <= r < |s|
    ensures r >= 0 ==> s[r] == c && forall j :: from <= j < r ==> s[j] != c
    ensures r == -1 ==> forall j :: from <= j < |s| ==> s[j] != c
    decreases |s| - from
  {
    if from == |s| then -1 else if s[from] == c then from else IndexOf(s, c, from + 1)
  }

  function TagOf(text: string, hasQual: bool): Option<Tag> {
    if text == "u" || text == "user" then Some(if hasQual then User else UserObj)
    else if text == "g" || text == "group" then Some(if hasQual then Group else GroupObj)
    else if text == "o" || text == "other" then Some(Other)
    else if text == "m" || text == "mask" then Some(Mask)
    else None
  }

  /** What one more character adds to the permissions; only -, r, w and x may occur. */
  function WithPerm(perms: Option<set<Perm>>, c: char): Option<set<Perm>> {
    if perms.None? then None
    else
      match c
      case 'r' => Some(perms.value + {Read})
      case 'w' => Some(perms.value + {Write})
      case 'x' => Some(perms.value + {Execute})
      case '-' => perms
      case _ => None
  }

  function PermsOf(text: string): Option<set<Perm>> {
    if text == "" then Some({}) else WithPerm(PermsOf(text[..|text| - 1]), text[|text| - 1])
  }

  /** The databases of users and groups. */
  datatype Ids = Ids(users: map<string, int>, groups: map<string, int>)

  function IdOf(ids: Ids, tag: Tag, name: string): Option<int> {
    if tag.User? then if name in ids.users then Some(ids.users[name]) else None
    else if tag.Group? then if name in ids.groups then Some(ids.groups[name]) else None
    else Some(0)
  }

  /** `rest` is what follows the tag and its colon; without permissions in it, those of the entry are left empty. */
  function AfterTag(ids: Ids, text: string, rest: string, permsReqd: bool): Option<Entry> {
    var colon2 := IndexOf(rest, ':');
    var hasPerms := colon2 != -1 && colon2 + 1 < |rest|;
    var perms := if hasPerms then PermsOf(rest[colon2 + 1..]) else Some({});
    var tag := TagOf(text, rest != "" && rest[0] != ':');
    if hasPerms != permsReqd || tag.None? || perms.None? then None
    else match IdOf(ids, tag.value, if colon2 == -1 then rest else rest[..colon2])
      case None => None
      case Some(qual) => Some(Entry(tag.value, qual, perms.value))
  }

  function EntryOf(ids: Ids, text: string, permsReqd: bool): Option<Entry> {
    var colon1 := IndexOf(text, ':');
    if colon1 == -1 then None else AfterTag(ids, text[..colon1], text[colon1 + 1..], permsReqd)
  }

  function EntriesOf(ids: Ids, text: string, permsReqd: bool, n: nat := 0): Option<seq<Entry>>
    decreases |text|
  {
    var comma := IndexOf(text, ',');
    var first := EntryOf(ids, if comma == -1 then text else text[..comma], permsReqd);
    if n >= MAX_ENTRIES || first.None? then None
    else if comma == -1 then Some([first.value])
    else Prepend([first.value], EntriesOf(ids, text[comma + 1..], permsReqd, n + 1))
  }

  method ParseEntrySpec(ids: Ids, entryStr: string, permsReqd: bool) returns (ace: Option<Entry>)
    ensures ace == EntryOf(ids, entryStr, permsReqd)
  {
    hide TagOf; hide IdOf; hide PermsOf; hide IndexOf;
    var colon1 := IndexOf(entryStr, ':');
    if colon1 == -1 { return None; }
    var rest := entryStr[colon1 + 1..];
    var hasQual := rest != "" && rest[0] != ':';
    var colon2 := IndexOf(rest, ':');
    var hasPerms := colon2 != -1 && colon2 + 1 < |rest|;
    if hasPerms && !permsReqd { return None; }
    if !hasPerms && permsReqd { return None; }
    var tag := TagOf(entryStr[..colon1], hasQual);
    if tag.None? { return None; }
    var qual := IdOf(ids, tag.value, if colon2 == -1 then rest else rest[..colon2]);
    if qual.None? { return None; }
    var perms := Some({});
    if hasPerms { perms := ParsePerms(rest[colon2 + 1..]); }
    if perms.None? { return None; }
    return Some(Entry(tag.value, qual.value, perms.value));
  }

  method ParsePerms(text: string) returns (perms: Option<set<Perm>>)
    ensures perms == PermsOf(text)
  {
    var bits: set<Perm> := {};
    for p := 0 to |text|
      invariant PermsOf(text[..p]) == Some(bits)
    {
      assert text[..p + 1][..p] == text[..p];
      match text[p] {
        case 'r' => bits := bits + {Read};
        case 'w' => bits := bits + {Write};
        case 'x' => bits := bits + {Execute};
        case '-' =>
        case _ =>
          BadPerms(text, p);
          return None;
      }
    }
    assert text[..|text|] == text;
    return Some(bits);
  }

  /** One bad character spoils all that follow. */
  lemma {:induction false} BadPerms(text: string, p: nat)
    requires p < |text| && text[p] !in "rwx-"
    ensures PermsOf(text) == None
    decreases |text|
  {
    if p < |text| - 1 { BadPerms(text[..|text| - 1], p); }
  }

  function Prepend(entries: seq<Entry>, more: Option<seq<Entry>>): Option<seq<Entry>> {
    match more case None => None case Some(rest) => Some(entries + rest)
  }

  lemma PrependNone(more: Option<seq<Entry>>)
    ensures Prepend([], more) == more
  {
    if more.Some? { assert [] + more.value == more.value; }
  }

  /** What the next entry of the text adds to those parsed so far. */
  lemma NextEntry(ids: Ids, text: string, permsReqd: bool, entries: seq<Entry>)
    ensures var comma := IndexOf(text, ','); var entry := EntryOf(ids, if comma == -1 then text else text[..comma], permsReqd);
      Prepend(entries, EntriesOf(ids, text, permsReqd, |entries|)) ==
        if |entries| >= MAX_ENTRIES || entry.None? then None
        else if comma == -1 then Some(entries + [entry.value])
        else Prepend(entries + [entry.value], EntriesOf(ids, text[comma + 1..], permsReqd, |entries| + 1))
  {
    hide EntryOf; hide IndexOf;
    var comma := IndexOf(text, ',');
    var entry := EntryOf(ids, if comma == -1 then text else text[..comma], permsReqd);
    if |entries| < MAX_ENTRIES && entry.Some? && comma != -1 {
      PrependOne(entries, entry.value, EntriesOf(ids, text[comma + 1..], permsReqd, |entries| + 1));
    }
  }

  lemma PrependOne(entries: seq<Entry>, e: Entry, more: Option<seq<Entry>>)
    ensures Prepend(entries, Prepend([e], more)) == Prepend(entries + [e], more)
  {
    if more.Some? { assert entries + ([e] + more.value) == entries + [e] + more.value; }
  }

  method ParseACL(ids: Ids, aclStr: string, permsReqd: bool) returns (aclist: Option<seq<Entry>>)
    ensures aclist == EntriesOf(ids, aclStr, permsReqd)
  {
    hide EntryOf; hide IndexOf; hide EntriesOf; hide Prepend;
    var entries: seq<Entry> := [];
    PrependNone(EntriesOf(ids, aclStr, permsReqd));
    var nextEntry := aclStr;
    while true
      invariant EntriesOf(ids, aclStr, permsReqd) == Prepend(entries, EntriesOf(ids, nextEntry, permsReqd, |entries|))
      decreases |nextEntry|
    {
      NextEntry(ids, nextEntry, permsReqd, entries);
      if |entries| >= MAX_ENTRIES { return None; }
      var comma := IndexOf(nextEntry, ',');
      var entry := ParseEntrySpec(ids, if comma == -1 then nextEntry else nextEntry[..comma], permsReqd);
      if entry.None? { return None; }
      if comma == -1 { return Some(entries + [entry.value]); }
      entries, nextEntry := entries + [entry.value], nextEntry[comma + 1..];
    }
  }

  // ----- writing entries and reading them back -----

  /**
   An entry as someone may write it: with the short or the long name of the tag,
   its user or group by name, the letters of its permissions in any order, and
   where no permissions are written, with or without a colon for them.
   */
  datatype Spec = Spec(tag: Tag, long: bool, name: string, perms: string, colon: bool)

  function TagText(tag: Tag, long: bool): string {
    match tag
    case UserObj | User => if long then "user" else "u"
    case GroupObj | Group => if long then "group" else "g"
    case Other => if long then "other" else "o"
    case Mask => if long then "mask" else "m"
  }

  function Letter(p: Perm): char {
    match p
    case Read => 'r'
    case Write => 'w'
    case Execute => 'x'
  }

  predicate PermLetters(text: string) {
    forall i :: 0 <= i < |text| ==> text[i] == '-' || exists p: Perm :: text[i] == Letter(p)
  }

  ghost function PermsIn(text: string): set<Perm> {
    set p: Perm | Letter(p) in text
  }

  /** What follows the tag and its colon. */
  function RestText(spec: Spec, withPerms: bool): string {
    spec.name + if withPerms then [':'] + spec.perms else if spec.colon then [':'] else ""
  }

  function SpecText(spec: Spec, withPerms: bool): string {
    TagText(spec.tag, spec.long) + [':'] + RestText(spec, withPerms)
  }

  function SpecsText(specs: seq<Spec>, withPerms: bool): string
    requires specs != []
  {
    if |specs| == 1 then SpecText(specs[0], withPerms)
    else SpecText(specs[0], withPerms) + [','] + SpecsText(specs[1..], withPerms)
  }

  /** The name can be written in an entry, and is in the database if the tag asks for one; of others and the mask it says nothing. */
  ghost predicate Writable(ids: Ids, spec: Spec) {
    && ':' !in spec.name && ',' !in spec.name && spec.perms != "" && PermLetters(spec.perms)
    && (Named(spec.tag) ==> spec.name != "" && IdOf(ids, spec.tag, spec.name).Some?)
    && (spec.tag.UserObj? || spec.tag.GroupObj? ==> spec.name == "")
  }

  ghost predicate AllWritable(ids: Ids, specs: seq<Spec>) {
    forall i :: 0 <= i < |specs| ==> Writable(ids, specs[i])
  }

  ghost function Meant(ids: Ids, spec: Spec, withPerms: bool): Entry
    requires Writable(ids, spec)
  {
    Entry(spec.tag, IdOf(ids, spec.tag, spec.name).value, if withPerms then PermsIn(spec.perms) else {})
  }

  ghost function AllMeant(ids: Ids, specs: seq<Spec>, withPerms: bool): seq<Entry>
    requires AllWritable(ids, specs)
  {
    if specs == [] then [] else [Meant(ids, specs[0], withPerms)] + AllMeant(ids, specs[1..], withPerms)
  }

  lemma FirstAt(before: string, c: char, after: string)
    requires c !in before
    ensures IndexOf(before + [c] + after, c) == |before|
    ensures (before + [c] + after)[..|before|] == before && (before + [c] + after)[|before| + 1..] == after
  {
    var s := before + [c] + after;
    assert s[|before|] == c;
    assert forall j :: 0 <= j < |before| ==> s[j] == before[j];
  }

  /** Permissions are read from any letters for them, in any order, and from nothing else. */
  lemma {:induction false} PermsMean(text: string)
    ensures PermsOf(text) == if PermLetters(text) then Some(PermsIn(text)) else None
    decreases |text|
  {
    if text != "" {
      var front, c := text[..|text| - 1], text[|text| - 1];
      assert text == front + [c];
      PermsMean(front);
      LettersMore(front, c);
      assert PermsOf(text) == WithPerm(PermsOf(front), c);
      hide PermLetters; hide PermsOf; hide PermsIn;
      assert PermsIn(front) + {} == PermsIn(front);
    } else {
      assert PermsIn(text) == {};
    }
  }

  lemma LettersMore(text: string, c: char)
    ensures PermLetters(text + [c]) <==> PermLetters(text) && c in "-rwx"
    ensures PermsIn(text + [c]) == PermsIn(text) + set p: Perm | Letter(p) == c
    ensures (set p: Perm | Letter(p) == c) == if c == 'r' then {Read} else if c == 'w' then {Write} else if c == 'x' then {Execute} else {}
  {
    assert (text + [c])[|text|] == c;
    assert forall i :: 0 <= i < |text| ==> (text + [c])[i] == text[i];
    assert Letter(Read) == 'r' && Letter(Write) == 'w' && Letter(Execute) == 'x';
  }

  lemma TagRead(tag: Tag, long: bool, named: bool)
    requires (Named(tag) ==> named) && (tag.UserObj? || tag.GroupObj? ==> !named)
    ensures TagOf(TagText(tag, long), named) == Some(tag) && ':' !in TagText(tag, long) && ',' !in TagText(tag, long)
  {
  }

  /** The text of an entry falls into the parts that were written. */
  lemma SpecParts(ids: Ids, spec: Spec, withPerms: bool)
    requires Writable(ids, spec)
    ensures EntryOf(ids, SpecText(spec, withPerms), withPerms)
      == AfterTag(ids, TagText(spec.tag, spec.long), RestText(spec, withPerms), withPerms)
    ensures EntryOf(ids, SpecText(spec, withPerms), !withPerms)
      == AfterTag(ids, TagText(spec.tag, spec.long), RestText(spec, withPerms), !withPerms)
  {
    TagRead(spec.tag, spec.long, spec.name != "");
    FirstAt(TagText(spec.tag, spec.long), ':', RestText(spec, withPerms));
    hide AfterTag; hide IndexOf; hide TagText; hide RestText;
  }

  lemma RestParts(ids: Ids, spec: Spec, withPerms: bool)
    requires Writable(ids, spec)
    ensures var rest := RestText(spec, withPerms); var colon2 := IndexOf(rest, ':');
      && (rest != "" && rest[0] != ':' <==> spec.name != "")
      && (if withPerms || spec.colon then colon2 == |spec.name| && rest[..colon2] == spec.name else colon2 == -1 && rest == spec.name)
      && (withPerms ==> rest[colon2 + 1..] == spec.perms)
      && (!withPerms && spec.colon ==> |rest| == colon2 + 1)
  {
    var rest := RestText(spec, withPerms);
    hide IndexOf;
    if withPerms {
      FirstAt(spec.name, ':', spec.perms);
      assert rest == spec.name + [':'] + spec.perms;
    } else if spec.colon {
      FirstAt(spec.name, ':', "");
      assert rest == spec.name + [':'] + "";
    } else {
      assert rest == spec.name;
    }
    assert rest != "" ==> rest[0] == if spec.name == "" then ':' else spec.name[0];
  }

  /** What is read after a tag, from the parts of the text. */
  lemma PartsRead(ids: Ids, text: string, rest: string, permsReqd: bool, tag: Tag, name: string)
    requires IdOf(ids, tag, name).Some? && TagOf(text, rest != "" && rest[0] != ':') == Some(tag)
    requires var colon2 := IndexOf(rest, ':');
      && (colon2 != -1 && colon2 + 1 < |rest| <==> permsReqd)
      && name == (if colon2 == -1 then rest else rest[..colon2])
      && (permsReqd ==> PermsOf(rest[colon2 + 1..]).Some?)
    ensures AfterTag(ids, text, rest, permsReqd)
      == Some(Entry(tag, IdOf(ids, tag, name).value, if permsReqd then PermsOf(rest[IndexOf(rest, ':') + 1..]).value else {}))
  {
    hide IdOf; hide TagOf; hide IndexOf; hide PermsOf;
  }

  lemma WritableParts(ids: Ids, spec: Spec)
    requires Writable(ids, spec)
    ensures IdOf(ids, spec.tag, spec.name).Some? && spec.perms != "" && PermLetters(spec.perms)
    ensures (Named(spec.tag) ==> spec.name != "") && (spec.tag.UserObj? || spec.tag.GroupObj? ==> spec.name == "")
  {
  }

  lemma MeantIs(ids: Ids, spec: Spec, withPerms: bool)
    requires Writable(ids, spec) && IdOf(ids, spec.tag, spec.name).Some?
    ensures Meant(ids, spec, withPerms) == Entry(spec.tag, IdOf(ids, spec.tag, spec.name).value, if withPerms then PermsIn(spec.perms) else {})
  {
  }

  /** An entry that is written out is read back as it was meant, however it was spelled. */
  lemma SpecRead(ids: Ids, spec: Spec, withPerms: bool)
    requires Writable(ids, spec)
    ensures EntryOf(ids, SpecText(spec, withPerms), withPerms) == Some(Meant(ids, spec, withPerms))
  {
    hide *;
    WritableParts(ids, spec);
    MeantIs(ids, spec, withPerms);
    SpecParts(ids, spec, withPerms);
    RestParts(ids, spec, withPerms);
    TagRead(spec.tag, spec.long, spec.name != "");
    PermsMean(spec.perms);
    var rest := RestText(spec, withPerms);
    assert withPerms ==> |rest| - IndexOf(rest, ':') - 1 == |spec.perms|;
    PartsRead(ids, TagText(spec.tag, spec.long), rest, withPerms, spec.tag, spec.name);
  }

  /** Permissions are rejected where none are wanted, and asked for where they are. */
  lemma WrongPermsRejected(ids: Ids, spec: Spec, withPerms: bool)
    requires Writable(ids, spec)
    ensures EntryOf(ids, SpecText(spec, withPerms), !withPerms) == None
  {
    SpecParts(ids, spec, withPerms);
    RestParts(ids, spec, withPerms);
    hide EntryOf; hide SpecText; hide IndexOf; hide PermsOf; hide TagOf; hide TagText; hide PermLetters; hide RestText;
  }

  /** The names of tags, one by one. */
  const TAGS := {"u", "user", "g", "group", "o", "other", "m", "mask"}

  /** Whatever is not such an entry is rejected: an unknown tag, user or group, or a letter that is no permission. */
  lemma OthersRejected(ids: Ids, tag: string, name: string, perms: string)
    requires ':' !in tag && ':' !in name && perms != ""
    requires tag !in TAGS || !PermLetters(perms)
      || (name != "" && ((tag in {"u", "user"} && name !in ids.users) || (tag in {"g", "group"} && name !in ids.groups)))
    ensures EntryOf(ids, tag + [':'] + (name + [':'] + perms), true) == None
  {
    var rest := name + [':'] + perms;
    FirstAt(tag, ':', rest);
    FirstAt(name, ':', perms);
    hide IndexOf; hide AfterTag;
    assert rest[0] == if name == "" then ':' else name[0];
    PartsRejected(ids, tag, name, perms, rest);
  }

  lemma PartsRejected(ids: Ids, tag: string, name: string, perms: string, rest: string)
    requires IndexOf(rest, ':') == |name| && rest[..|name|] == name && rest[|name| + 1..] == perms
    requires rest[0] == if name == "" then ':' else name[0]
    requires perms != ""
    requires tag !in TAGS || !PermLetters(perms)
      || (name != "" && ((tag in {"u", "user"} && name !in ids.users) || (tag in {"g", "group"} && name !in ids.groups)))
    ensures AfterTag(ids, tag, rest, true) == None
  {
    PermsMean(perms);
    TagsAre(tag, rest != "" && rest[0] != ':');
    hide IndexOf; hide PermsOf; hide PermLetters; hide PermsIn; hide TagOf;
  }

  lemma TagsAre(tag: string, hasQual: bool)
    ensures TagOf(tag, hasQual).Some? <==> tag in TAGS
    ensures hasQual && tag in {"u", "user"} ==> TagOf(tag, hasQual) == Some(User)
    ensures hasQual && tag in {"g", "group"} ==> TagOf(tag, hasQual) == Some(Group)
  {
  }

  lemma NoColonRejected(ids: Ids, text: string, permsReqd: bool)
    requires ':' !in text
    ensures EntryOf(ids, text, permsReqd) == None
  {
  }

  lemma SpecOneEntry(ids: Ids, spec: Spec, withPerms: bool)
    requires Writable(ids, spec)
    ensures ',' !in SpecText(spec, withPerms)
  {
    TagRead(spec.tag, spec.long, spec.name != "");
    assert forall i :: 0 <= i < |spec.perms| ==> spec.perms[i] != ',';
    hide TagText; hide PermLetters;
  }

  lemma AllMeantStep(ids: Ids, specs: seq<Spec>, withPerms: bool)
    requires specs != [] && AllWritable(ids, specs)
    ensures AllMeant(ids, specs, withPerms) == if |specs| == 1 then [Meant(ids, specs[0], withPerms)]
      else [Meant(ids, specs[0], withPerms)] + AllMeant(ids, specs[1..], withPerms)
    ensures SpecsText(specs, withPerms) == if |specs| == 1 then SpecText(specs[0], withPerms)
      else SpecText(specs[0], withPerms) + [','] + SpecsText(specs[1..], withPerms)
  {
    hide SpecText; hide Meant; hide Writable;
  }

  lemma OneEntry(ids: Ids, text: string, permsReqd: bool, n: nat)
    requires ',' !in text && n < MAX_ENTRIES && EntryOf(ids, text, permsReqd).Some?
    ensures EntriesOf(ids, text, permsReqd, n) == Some([EntryOf(ids, text, permsReqd).value])
  {
    hide EntryOf;
  }

  lemma MoreEntries(ids: Ids, text: string, more: string, permsReqd: bool, n: nat)
    requires ',' !in text && n < MAX_ENTRIES && EntryOf(ids, text, permsReqd).Some?
    ensures EntriesOf(ids, text + [','] + more, permsReqd, n)
      == Prepend([EntryOf(ids, text, permsReqd).value], EntriesOf(ids, more, permsReqd, n + 1))
  {
    FirstAt(text, ',', more);
    hide EntryOf; hide IndexOf;
  }

  /** So are lists of any length the parser admits: parsing is the inverse of writing. */
  lemma {:induction false} SpecsRead(ids: Ids, specs: seq<Spec>, withPerms: bool, n: nat)
    requires specs != [] && n + |specs| <= MAX_ENTRIES && AllWritable(ids, specs)
    ensures EntriesOf(ids, SpecsText(specs, withPerms), withPerms, n) == Some(AllMeant(ids, specs, withPerms))
    decreases |specs|
  {
    hide SpecText; hide EntryOf; hide IndexOf; hide Meant; hide Writable; hide SpecsText; hide AllMeant; hide EntriesOf;
    var text := SpecText(specs[0], withPerms);
    SpecRead(ids, specs[0], withPerms);
    SpecOneEntry(ids, specs[0], withPerms);
    AllMeantStep(ids, specs, withPerms);
    if |specs| == 1 {
      OneEntry(ids, text, withPerms, n);
    } else {
      var more := SpecsText(specs[1..], withPerms);
      SpecsRead(ids, specs[1..], withPerms, n + 1);
      MoreEntries(ids, text, more, withPerms, n);
    }
  }

  lemma NoRoomLeft(ids: Ids, text: string, permsReqd: bool, n: nat)
    requires n >= MAX_ENTRIES
    ensures EntriesOf(ids, text, permsReqd, n) == None
  {
    hide EntryOf; hide IndexOf;
  }

  /** One entry more than the parser admits, and the whole list is rejected. */
  lemma {:induction false} TooManyRejected(ids: Ids, specs: seq<Spec>, withPerms: bool, n: nat)
    requires specs != [] && n + |specs| > MAX_ENTRIES && AllWritable(ids, specs)
    ensures EntriesOf(ids, SpecsText(specs, withPerms), withPerms, n) == None
    decreases |specs|
  {
    hide EntryOf; hide IndexOf; hide SpecText; hide EntriesOf; hide SpecsText;
    if n >= MAX_ENTRIES {
      NoRoomLeft(ids, SpecsText(specs, withPerms), withPerms, n);
    } else {
      hide SpecText; hide EntryOf; hide IndexOf; hide Meant; hide Writable; hide SpecsText; hide AllMeant; hide EntriesOf;
      SpecRead(ids, specs[0], withPerms);
      SpecOneEntry(ids, specs[0], withPerms);
      AllMeantStep(ids, specs, withPerms);
      TooManyRejected(ids, specs[1..], withPerms, n + 1);
      MoreEntries(ids, SpecText(specs[0], withPerms), SpecsText(specs[1..], withPerms), withPerms, n);
    }
  }
}
