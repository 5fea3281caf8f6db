/**
 * The conversation store (`storage_service`): one JSON file per
 * conversation in the directory `conversation_history`. The directory is a
 * map from file name to what `json.load` makes of the file (or `Unreadable`
 * when that raises); the listing order of `os.listdir` and the current time
 * are inputs.
 */
module Storage {
  import opened Wrappers
  import opened Text
  import opened Json

  const StorageDir: string := "conversation_history"
  const FilePrefix: string := "conversation_"
  const FileSuffix: string := ".json"

  /** What reading one file gives: a parsed JSON value, or an error raised while opening or parsing it. */
  datatype Record = Unreadable | Parsed(data: Value)

  /** The storage directory: file names to file contents. */
  type Directory = map<string, Record>

  /** A message of a conversation, as a dictionary. */
  type Message = map<string, Value>

  /** The base name of the file that holds a conversation. */
  function FileBase(id: string): (r: string)
    ensures |r| == |FilePrefix| + |id| + |FileSuffix|
    ensures r[..|FilePrefix|] == FilePrefix && r[|FilePrefix|..|FilePrefix| + |id|] == id
    ensures r[|FilePrefix| + |id|..] == FileSuffix
  {
    FilePrefix + id + FileSuffix
  }

  /** `get_conversation_filename`: the base name inside the storage directory (`os.path.join`). */
  function FileName(id: string): (r: string)
    ensures |r| == |StorageDir| + 1 + |FileBase(id)|
    ensures r[..|StorageDir| + 1] == StorageDir + "/"
    ensures r[|StorageDir| + 1..] == FileBase(id) && IsConversationFile(r[|StorageDir| + 1..])
  {
    StorageDir + "/" + FileBase(id)
  }

  /** Distinct conversations never share a file. */
  lemma FileNameInjective(a: string, b: string)
    requires FileName(a) == FileName(b)
    ensures a == b
  {
    var n := |StorageDir + "/" + FilePrefix|;
    assert |a| == |b|;
    assert a == FileName(a)[n..n + |a|];
    assert b == FileName(b)[n..n + |b|];
  }

  /** The file-name filter of `list_conversations`. */
  predicate IsConversationFile(name: string)
  {
    && |FilePrefix| <= |name| && name[..|FilePrefix|] == FilePrefix
    && |FileSuffix| <= |name| && name[|name| - |FileSuffix|..] == FileSuffix
  }

  /** Every conversation's own file passes the filter. */
  lemma FileBaseListed(id: string)
    ensures IsConversationFile(FileBase(id))
  {
    var f := FileBase(id);
    assert f[|f| - |FileSuffix|..] == f[|FilePrefix| + |id|..];
  }

  /** Conversely, every file the filter accepts is the file of some conversation. */
  lemma ConversationFileShape(name: string)
    requires IsConversationFile(name)
    ensures |FilePrefix| + |FileSuffix| <= |name|
    ensures name == FileBase(name[|FilePrefix|..|name| - |FileSuffix|])
  {
    var p := |name| - |FileSuffix|;
    assert name[p] == name[p..][0] == '.';
    assert forall i :: 0 <= i < |FilePrefix| ==> name[i] == name[..|FilePrefix|][i] != '.';
  }

  /**
   * One message of `save_conversation`'s copy loop: a dictionary `content`
   * with a truthy `thinking` becomes `<think>thinking</think>`, a blank line
   * and the inner `content`; with a falsy one, just the inner `content`
   * (`None` when absent). Anything else is copied as it is.
   */
  function FlattenMessage(msg: Message): (r: Message)
    ensures r.Keys == msg.Keys
    ensures forall k :: k in msg && k != "content" ==> r[k] == msg[k]
    ensures !("content" in msg && msg["content"].Obj?) ==> r == msg
    ensures "content" in msg && msg["content"].Obj? ==>
              var inner := msg["content"].fields;
              && (Truthy(Get(inner, "thinking", Null)) ==>
                    r["content"] == Str(OpenTag + PyStr(inner["thinking"]) + CloseTag + "\n\n"
                                        + PyStr(Get(inner, "content", Null))))
              && (!Truthy(Get(inner, "thinking", Null)) ==> r["content"] == Get(inner, "content", Null))
  {
    if "content" in msg && msg["content"].Obj? then
      var inner := msg["content"].fields;
      var thinking := Get(inner, "thinking", Null);
      var content := Get(inner, "content", Null);
      if Truthy(thinking) then
        msg["content" := Str(OpenTag + PyStr(thinking) + CloseTag + "\n\n" + PyStr(content))]
      else
        msg["content" := content]
    else
      msg
  }

  /**
   * The copy loop of `save_conversation`: one flattened copy per message, in
   * order. The caller's list is a value here, so it cannot be changed.
   */
  method FlattenMessages(messages: seq<Message>) returns (copies: seq<Message>)
    ensures |copies| == |messages|
    ensures forall i :: 0 <= i < |messages| ==> copies[i] == FlattenMessage(messages[i])
  {
    copies := [];
    for n := 0 to |messages|
      invariant |copies| == n
      invariant forall i :: 0 <= i < n ==> copies[i] == FlattenMessage(messages[i])
    {
      copies := copies + [FlattenMessage(messages[n])];
    }
  }

  /** The list of dictionaries as a JSON value. */
  function MessagesValue(messages: seq<Message>): (r: Value)
    ensures r.Arr? && |r.items| == |messages|
    ensures forall i :: 0 <= i < |messages| ==> r.items[i] == Obj(messages[i])
  {
    Arr(seq(|messages|, i requires 0 <= i < |messages| => Obj(messages[i])))
  }

  /** The document `save_conversation` writes. */
  function ConversationData(id: string, now: string, name: Value, copies: seq<Message>): (r: Value)
    ensures r.Obj? && r.fields.Keys == {"id", "last_updated", "name", "messages"}
    ensures r.fields["id"] == Str(id) && r.fields["last_updated"] == Str(now)
    ensures r.fields["name"] == name && r.fields["messages"] == MessagesValue(copies)
  {
    Obj(map["id" := Str(id), "last_updated" := Str(now), "name" := name, "messages" := MessagesValue(copies)])
  }

  /**
   * `save_conversation`: flattens the messages and writes them with the
   * conversation's id, the given time and name to the conversation's file.
   */
  method SaveConversation(dir: Directory, id: string, messages: seq<Message>, now: string, name: Value)
    returns (newDir: Directory, ok: bool)
    ensures ok
    ensures exists copies: seq<Message> ::
              && |copies| == |messages|
              && (forall i :: 0 <= i < |messages| ==> copies[i] == FlattenMessage(messages[i]))
              && newDir == dir[FileBase(id) := Parsed(ConversationData(id, now, name, copies))]
  {
    var copies := FlattenMessages(messages);
    newDir := dir[FileBase(id) := Parsed(ConversationData(id, now, name, copies))];
    ok := true;
  }

  /**
   * `load_conversation`: the `messages` entry of the conversation's file;
   * an empty list when the file is missing, cannot be read, is not a
   * dictionary, or has no `messages` entry.
   */
  function LoadConversation(dir: Directory, id: string): (r: Value)
    ensures FileBase(id) !in dir ==> r == Arr([])
    ensures FileBase(id) in dir && dir[FileBase(id)].Parsed? && dir[FileBase(id)].data.Obj?
            && "messages" in dir[FileBase(id)].data.fields
            ==> r == dir[FileBase(id)].data.fields["messages"]
    ensures !(FileBase(id) in dir && dir[FileBase(id)].Parsed? && dir[FileBase(id)].data.Obj?
              && "messages" in dir[FileBase(id)].data.fields)
            ==> r == Arr([])
  {
    var f := FileBase(id);
    if f !in dir then Arr([])
    else match dir[f]
      case Unreadable => Arr([])
      case Parsed(data) => if data.Obj? then Get(data.fields, "messages", Arr([])) else Arr([])
  }

  /** What was saved loads back: the flattened messages, in order. */
  lemma LoadAfterSave(dir: Directory, id: string, now: string, name: Value, copies: seq<Message>)
    ensures LoadConversation(dir[FileBase(id) := Parsed(ConversationData(id, now, name, copies))], id)
            == MessagesValue(copies)
  {
  }

  /** `delete_conversation`: removes the file and reports whether there was one. */
  function DeleteConversation(dir: Directory, id: string): (r: (Directory, bool))
    ensures r.1 <==> FileBase(id) in dir
    ensures r.0 == dir - {FileBase(id)}
    ensures FileBase(id) !in r.0
  {
    if FileBase(id) !in dir then (dir, false) else (dir - {FileBase(id)}, true)
  }

  /** After a delete the conversation loads as empty, and a second delete reports failure. */
  lemma DeleteThenLoad(dir: Directory, id: string)
    ensures LoadConversation(DeleteConversation(dir, id).0, id) == Arr([])
    ensures !DeleteConversation(DeleteConversation(dir, id).0, id).1
  {
  }

  /** The entry `list_conversations` makes for one file. */
  datatype Summary = Summary(id: Value, name: Value, lastUpdated: Value, messageCount: nat, filename: string)

  /**
   * The `try` block of `list_conversations` for one file that passed the
   * filter: `None` when reading fails, when the file is not a dictionary or
   * when `len` of its `messages` raises; otherwise the summary with the
   * defaults `"unknown"`, `"(unnamed)"`, `"unknown"` and no messages.
   */
  function Summarize(dir: Directory, filename: string): (r: Option<Summary>)
    ensures r.Some? <==> filename in dir && dir[filename].Parsed? && dir[filename].data.Obj?
                         && Len(Get(dir[filename].data.fields, "messages", Arr([]))).Some?
    ensures r.Some? ==>
              var fields := dir[filename].data.fields;
              && r.value.filename == filename
              && r.value.id == Get(fields, "id", Str("unknown"))
              && r.value.name == Get(fields, "name", Str("(unnamed)"))
              && r.value.lastUpdated == Get(fields, "last_updated", Str("unknown"))
              && ("messages" !in fields ==> r.value.messageCount == 0)
              && ("messages" in fields ==> Some(r.value.messageCount) == Len(fields["messages"]))
  {
    if filename !in dir || !dir[filename].Parsed? || !dir[filename].data.Obj? then None
    else
      var fields := dir[filename].data.fields;
      match Len(Get(fields, "messages", Arr([])))
      case None => None
      case Some(count) =>
        Some(Summary(Get(fields, "id", Str("unknown")), Get(fields, "name", Str("(unnamed)")),
                     Get(fields, "last_updated", Str("unknown")), count, filename))
  }

  /** The summaries the loop of `list_conversations` collects, in listing order. */
  function Summaries(dir: Directory, listing: seq<string>): (r: seq<Summary>)
    ensures |r| <= |listing|
  {
    if |listing| == 0 then []
    else
      var name := listing[|listing| - 1];
      var more := if IsConversationFile(name) then Summarize(dir, name) else None;
      Summaries(dir, listing[..|listing| - 1]) + (if more.Some? then [more.value] else [])
  }

  /** Only readable conversation files that were listed are summarised. */
  lemma {:induction false} SummariesFiltered(dir: Directory, listing: seq<string>)
    ensures forall s :: s in Summaries(dir, listing) ==>
              IsConversationFile(s.filename) && s.filename in listing && Summarize(dir, s.filename) == Some(s)
  {
    if |listing| != 0 {
      var init := listing[..|listing| - 1];
      SummariesFiltered(dir, init);
      assert forall x :: x in init ==> x in listing;
    }
  }

  /** Conversely, every listed conversation file that can be summarised is summarised. */
  lemma {:induction false} SummariesComplete(dir: Directory, listing: seq<string>, f: string)
    requires f in listing && IsConversationFile(f) && Summarize(dir, f).Some?
    ensures Summarize(dir, f).value in Summaries(dir, listing)
    decreases |listing|
  {
    var init := listing[..|listing| - 1];
    assert listing == init + [listing[|listing| - 1]];
    if f != listing[|listing| - 1] {
      SummariesComplete(dir, init, f);
    }
  }

  /** A saved conversation whose file is listed is summarised with its id, time, name and message count. */
  lemma SavedIsListed(dir: Directory, id: string, now: string, name: Value, copies: seq<Message>, listing: seq<string>)
    requires FileBase(id) in listing
    ensures Summary(Str(id), name, Str(now), |copies|, FileBase(id))
              in Summaries(dir[FileBase(id) := Parsed(ConversationData(id, now, name, copies))], listing)
  {
    var saved := dir[FileBase(id) := Parsed(ConversationData(id, now, name, copies))];
    FileBaseListed(id);
    assert Summarize(saved, FileBase(id)) == Some(Summary(Str(id), name, Str(now), |copies|, FileBase(id)));
    SummariesComplete(saved, listing, FileBase(id));
  }

  /** Python's `<=` on strings: lexicographic by code point, a prefix first. */
  predicate StrLe(a: string, b: string)
    ensures a <= b ==> StrLe(a, b)
    decreases |a|
  {
    |a| == 0 || (|b| != 0 && (a[0] < b[0] || (a[0] == b[0] && StrLe(a[1..], b[1..]))))
  }

  lemma {:induction false} StrLeTotal(a: string, b: string)
    ensures StrLe(a, b) || StrLe(b, a)
    decreases |a|
  {
    if |a| != 0 && |b| != 0 && a[0] == b[0] {
      StrLeTotal(a[1..], b[1..]);
    }
  }

  lemma {:induction false} StrLeAntisymmetric(a: string, b: string)
    requires StrLe(a, b) && StrLe(b, a)
    ensures a == b
    decreases |a|
  {
    if |a| != 0 {
      StrLeAntisymmetric(a[1..], b[1..]);
      assert a == [a[0]] + a[1..] && b == [b[0]] + b[1..];
    }
  }

  lemma {:induction false} StrLeTrans(a: string, b: string, c: string)
    requires StrLe(a, b) && StrLe(b, c)
    ensures StrLe(a, c)
    decreases |a|
  {
    if |a| != 0 && a[0] == b[0] && b[0] == c[0] {
      StrLeTrans(a[1..], b[1..], c[1..]);
    }
  }

  /** The sort key of a summary; only strings are compared (see `ListConversations`). */
  function Key(s: Summary): string
  {
    if s.lastUpdated.Str? then s.lastUpdated.s else ""
  }

  /** Non-increasing by `last_updated`. */
  predicate SortedDesc(xs: seq<Summary>)
  {
    forall i, j :: 0 <= i < j < |xs| ==> StrLe(Key(xs[j]), Key(xs[i]))
  }

  /**
   * Inserts `x` after every entry whose key is at least its own, as the
   * stable `list.sort(reverse=True)` places a later entry after earlier equal ones.
   */
  function InsertDesc(sorted: seq<Summary>, x: Summary): (r: seq<Summary>)
    ensures multiset(r) == multiset(sorted) + multiset{x}
    decreases |sorted|
  {
    if |sorted| == 0 then [x]
    else
      var last := sorted[|sorted| - 1];
      if StrLe(Key(x), Key(last)) then sorted + [x]
      else
        var init := sorted[..|sorted| - 1];
        assert sorted == init + [last];
        InsertDesc(init, x) + [last]
  }

  /** A lower bound of `sorted` and `x` is a lower bound of the insertion. */
  lemma LowerBoundKept(sorted: seq<Summary>, x: Summary, low: string)
    requires forall i :: 0 <= i < |sorted| ==> StrLe(low, Key(sorted[i]))
    requires StrLe(low, Key(x))
    ensures forall k :: 0 <= k < |InsertDesc(sorted, x)| ==> StrLe(low, Key(InsertDesc(sorted, x)[k]))
  {
    var m := InsertDesc(sorted, x);
    forall k | 0 <= k < |m|
      ensures StrLe(low, Key(m[k]))
    {
      assert m[k] in multiset(m);
      if m[k] != x {
        assert m[k] in multiset(sorted);
        var i :| 0 <= i < |sorted| && sorted[i] == m[k];
      }
    }
  }

  lemma {:induction false} InsertDescSorted(sorted: seq<Summary>, x: Summary)
    requires SortedDesc(sorted)
    ensures SortedDesc(InsertDesc(sorted, x))
    decreases |sorted|
  {
    if |sorted| != 0 {
      var last := sorted[|sorted| - 1];
      var init := sorted[..|sorted| - 1];
      if StrLe(Key(x), Key(last)) {
        var r := sorted + [x];
        forall i, j | 0 <= i < j < |r|
          ensures StrLe(Key(r[j]), Key(r[i]))
        {
          if j == |sorted| && i < |sorted| - 1 {
            StrLeTrans(Key(x), Key(last), Key(sorted[i]));
          }
        }
      } else {
        StrLeTotal(Key(x), Key(last));
        InsertDescSorted(init, x);
        LowerBoundKept(init, x, Key(last));
      }
    }
  }

  /** The result of `conversations.sort(key=..., reverse=True)` on string keys. */
  function SortDesc(xs: seq<Summary>): (r: seq<Summary>)
    ensures multiset(r) == multiset(xs)
  {
    if |xs| == 0 then []
    else
      assert xs == xs[..|xs| - 1] + [xs[|xs| - 1]];
      InsertDesc(SortDesc(xs[..|xs| - 1]), xs[|xs| - 1])
  }

  lemma {:induction false} SortDescSorted(xs: seq<Summary>)
    ensures SortedDesc(SortDesc(xs))
  {
    if |xs| != 0 {
      SortDescSorted(xs[..|xs| - 1]);
      InsertDescSorted(SortDesc(xs[..|xs| - 1]), xs[|xs| - 1]);
    }
  }

  /** Python can only order the keys when they are all strings, or when there are fewer than two. */
  predicate Sortable(xs: seq<Summary>)
  {
    |xs| <= 1 || forall i :: 0 <= i < |xs| ==> xs[i].lastUpdated.Str?
  }

  /**
   * `list_conversations`: summarises every listed conversation file that can
   * be read, then sorts the summaries by `last_updated`, newest first. `None`
   * stands for the `TypeError` the sort raises on keys that are not all strings.
   */
  method ListConversations(dir: Directory, listing: seq<string>) returns (conversations: Option<seq<Summary>>)
    ensures conversations.Some? <==> Sortable(Summaries(dir, listing))
    ensures conversations.Some? ==>
              && SortedDesc(conversations.value)
              && multiset(conversations.value) == multiset(Summaries(dir, listing))
  {
    var found: seq<Summary> := [];
    for n := 0 to |listing|
      invariant found == Summaries(dir, listing[..n])
    {
      assert listing[..n + 1][..n] == listing[..n];
      var filename := listing[n];
      if IsConversationFile(filename) {
        var summary := Summarize(dir, filename);
        if summary.Some? {
          found := found + [summary.value];
        }
      }
    }
    assert listing[..|listing|] == listing;
    if Sortable(found) {
      SortDescSorted(found);
      conversations := Some(SortDesc(found));
    } else {
      conversations := None;
    }
  }
}
