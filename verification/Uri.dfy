/** Topics: dm_utils_service_name of dm_utils.c, dm_msg_uri_parse_pkdn of dm_message.c and the event id of dm_msg_process.c. */
module Uri {
  import opened Text

  const SYS_PREFIX := "/sys/%s/%s/"

  /** What printf makes of a format whose only directives are %s. */
  function Expand(format: string, args: seq<string>): string {
    if format == "" then ""
    else if |format| >= 2 && format[..2] == "%s" && args != [] then args[0] + Expand(format[2..], args[1..])
    else [format[0]] + Expand(format[1..], args)
  }

  /** The %s directives are no more than the arguments. */
  predicate Takes(format: string, args: nat) {
    if format == "" then true
    else if format[0] == '%' then |format| >= 2 && format[1] == 's' && args > 0 && Takes(format[2..], args - 1)
    else Takes(format[1..], args)
  }

  function TotalLength(args: seq<string>): nat {
    if args == [] then 0 else |args[0]| + TotalLength(args[1..])
  }

  lemma {:induction false} ExpandFits(format: string, args: seq<string>)
    requires Takes(format, |args|)
    ensures |Expand(format, args)| <= |format| + TotalLength(args)
  {
    if format != "" {
      if format[0] == '%' {
        assert format[..2] == "%s";
        ExpandFits(format[2..], args[1..]);
      } else {
        assert |format| >= 2 ==> format[..2][0] == format[0];
        ExpandFits(format[1..], args);
      }
    }
  }

  /** HAL_Snprintf into a buffer of the given size. */
  function Snprintf(size: nat, format: string, args: seq<string>): string {
    var s := Expand(format, args);
    if |s| < size then s else s[..if size == 0 then 0 else size - 1]
  }

  /** dm_utils_service_name: the buffer is sized before anything is printed.  Neither the print nor the copy of the name
      that follows it reaches the end of the buffer, so that the topic is complete and terminated. */
  method ServiceName(prefix: Option<string>, name: Option<string>, productKey: string, deviceName: string)
    returns (topic: Option<string>)
    requires prefix.Some? ==> Takes(prefix.value, 2)
    ensures topic.None? <==> prefix.None? && name.None?
    ensures topic.Some? ==>
              topic.value == (if prefix.Some? then Expand(prefix.value, [productKey, deviceName]) else "")
                             + (if name.Some? then name.value else "")
  {
    if prefix.None? && name.None? {
      return None;
    }
    var prefixLen := if prefix.Some? then |prefix.value| else 0;
    var nameLen := if name.Some? then |name.value| else 0;
    var size := prefixLen + nameLen + |productKey| + |deviceName| + 1;
    var buffer := "";
    if prefix.Some? {
      ExpandFits(prefix.value, [productKey, deviceName]);
      assert [productKey, deviceName][1..] == [deviceName] && TotalLength([deviceName]) == |deviceName|;
      buffer := Snprintf(size, prefix.value, [productKey, deviceName]);
    }
    if name.Some? {
      assert |buffer| + nameLen < size;
      buffer := buffer + name.value;
    }
    topic := Some(buffer);
  }

  // ---------------------------------------------------------------- parsing

  datatype Identity = Identity(productKey: string, deviceName: string)

  function Between(uri: string, first: nat): Option<string> {
    match (Token(uri, '/', first), Token(uri, '/', first + 1)) {
      case (Some(a), Some(b)) => if a < b then Some(uri[a + 1..b]) else None
      case _ => None
    }
  }

  /** The two segments from the `start`-th delimiter on. */
  function IdentityOf(uri: string, start: nat): Option<Identity> {
    match (Between(uri, start), Between(uri, start + 1)) {
      case (Some(key), Some(name)) => Some(Identity(key, name))
      case _ => None
    }
  }

  lemma {:induction false} TokensAscend(uri: string, first: nat)
    ensures Token(uri, '/', first).Some? && Token(uri, '/', first + 1).Some? ==>
              Token(uri, '/', first).value < Token(uri, '/', first + 1).value
  {
    if Token(uri, '/', first).Some? && Token(uri, '/', first + 1).Some? {
      var a, b := Token(uri, '/', first).value, Token(uri, '/', first + 1).value;
      if b < a {
        CountMonotone(uri, '/', b, a);
      }
    }
  }

  /** dm_msg_uri_parse_pkdn, with the end delimiter two after the start as in every call. */
  method ParseIdentity(uri: string, start: nat) returns (r: Option<Identity>)
    ensures r == IdentityOf(uri, start)
  {
    hide Token;
    TokensAscend(uri, start);
    TokensAscend(uri, start + 1);
    var first := Memtok(uri, '/', start);
    if first.None? {
      return None;
    }
    var slice := Memtok(uri, '/', start + 1);
    if slice.None? {
      return None;
    }
    var end := Memtok(uri, '/', start + 2);
    if end.None? {
      return None;
    }
    r := Some(Identity(uri[first.value + 1..slice.value], uri[slice.value + 1..end.value]));
  }

  /** The event id of dm_msg_proc_thing_event_post_reply. */
  method ParseEventId(uri: string) returns (r: Option<string>)
    ensures r == Between(uri, 6)
  {
    TokensAscend(uri, 6);
    var start := Memtok(uri, '/', 6);
    if start.None? {
      return None;
    }
    var end := Memtok(uri, '/', 7);
    if end.None? {
      return None;
    }
    r := Some(uri[start.value + 1..end.value]);
  }

  // ---------------------------------------------------------------- round trips

  predicate Segmented(parts: seq<string>) {
    forall p <- parts :: '/' !in p
  }

  /** Every segment behind a delimiter of its own. */
  function Join(parts: seq<string>): string {
    if parts == [] then "" else Join(parts[..|parts| - 1]) + "/" + parts[|parts| - 1]
  }

  lemma {:induction false} JoinCount(parts: seq<string>)
    requires Segmented(parts)
    ensures Count(Join(parts), '/') == |parts|
  {
    if parts != [] {
      var n := |parts| - 1;
      JoinCount(parts[..n]);
      CountConcat(Join(parts[..n]) + "/", parts[n], '/');
      CountConcat(Join(parts[..n]), "/", '/');
      CountFree(parts[n], '/');
      CountPrefix("/", '/', 0);
      assert "/"[..1] == "/" && "/"[..0] == "";
    }
  }

  /** The delimiter after k segments is found where they end, exactly when something follows it. */
  lemma {:induction false} TokenAfter(parts: seq<string>, rest: string)
    requires Segmented(parts)
    ensures rest != "" ==> Token(Join(parts) + "/" + rest, '/', |parts| + 1) == Some(|Join(parts)|)
    ensures rest == "" ==> Token(Join(parts) + "/" + rest, '/', |parts| + 1) == None
  {
    var uri, o := Join(parts) + "/" + rest, |Join(parts)|;
    JoinCount(parts);
    assert uri[..o] == Join(parts);
    if rest != "" {
      TokenUnique(uri, '/', |parts| + 1, o);
    } else if Token(uri, '/', |parts| + 1).Some? {
      var p := Token(uri, '/', |parts| + 1).value;
      CountPrefix(uri, '/', p);
      CountMonotone(uri, '/', p + 1, o);
    }
  }

  lemma {:induction false} JoinMore(parts: seq<string>, part: string)
    ensures Join(parts + [part]) == Join(parts) + "/" + part
    ensures Segmented(parts) && '/' !in part ==> Segmented(parts + [part])
  {
    assert (parts + [part])[..|parts|] == parts;
  }

  lemma {:induction false} SegmentSlice(a: string, part: string, rest: string)
    ensures var uri := a + "/" + part + "/" + rest;
            uri == a + "/" + (part + "/" + rest) && uri[|a| + 1..|a| + 1 + |part|] == part
  {
  }

  /** A segment is read back exactly when something follows the delimiter behind it. */
  lemma {:induction false} BetweenAfter(parts: seq<string>, part: string, rest: string, uri: string)
    requires Segmented(parts) && '/' !in part && uri == Join(parts) + "/" + part + "/" + rest
    ensures Between(uri, |parts| + 1) == if rest != "" then Some(part) else None
  {
    hide Token, Join, Segmented;
    FirstDelimiter(parts, part, rest, uri);
    SecondDelimiter(parts, part, rest, uri);
    BetweenSlice(uri, |parts| + 1, |Join(parts)|, |Join(parts)| + 1 + |part|, part);
  }

  lemma {:induction false} BetweenSlice(uri: string, first: nat, a: nat, b: nat, part: string)
    requires Token(uri, '/', first) == Some(a) && a < b
    requires Token(uri, '/', first + 1) == None
             || (Token(uri, '/', first + 1) == Some(b) && b <= |uri| && uri[a + 1..b] == part)
    ensures Between(uri, first) == if Token(uri, '/', first + 1).Some? then Some(part) else None
  {
    hide Token;
  }

  lemma {:induction false} FirstDelimiter(parts: seq<string>, part: string, rest: string, uri: string)
    requires Segmented(parts) && uri == Join(parts) + "/" + part + "/" + rest
    ensures Token(uri, '/', |parts| + 1) == Some(|Join(parts)|)
  {
    hide Token, Join, Segmented;
    SegmentSlice(Join(parts), part, rest);
    TokenAfter(parts, part + "/" + rest);
  }

  lemma {:induction false} SecondDelimiter(parts: seq<string>, part: string, rest: string, uri: string)
    requires Segmented(parts) && '/' !in part && uri == Join(parts) + "/" + part + "/" + rest
    ensures Token(uri, '/', |parts| + 2) == if rest != "" then Some(|Join(parts)| + 1 + |part|) else None
    ensures uri[|Join(parts)| + 1..|Join(parts)| + 1 + |part|] == part
  {
    hide Token, Join, Segmented;
    JoinMore(parts, part);
    TokenAfter(parts + [part], rest);
  }

  function Topic(productKey: string, deviceName: string, name: string): string {
    Expand(SYS_PREFIX, [productKey, deviceName]) + name
  }

  lemma {:induction false} ExpandText(text: string, rest: string, args: seq<string>)
    requires '%' !in text
    ensures Expand(text + rest, args) == text + Expand(rest, args)
  {
    if text == "" {
      assert text + rest == rest;
    } else {
      assert (text + rest)[1..] == text[1..] + rest;
      assert (text + rest)[0] != '%';
      ExpandText(text[1..], rest, args);
    }
  }

  lemma {:induction false} ExpandArgument(rest: string, args: seq<string>)
    requires args != []
    ensures Expand("%s" + rest, args) == args[0] + Expand(rest, args[1..])
  {
    assert ("%s" + rest)[..2] == "%s" && ("%s" + rest)[2..] == rest;
  }

  lemma {:induction false} TopicIs(productKey: string, deviceName: string, name: string)
    ensures Topic(productKey, deviceName, name) == Join(["sys", productKey, deviceName]) + "/" + name
  {
    hide Expand, Join;
    var a0, a1: seq<string>, a2: seq<string> := [productKey, deviceName], [deviceName], [];
    assert a0[1..] == a1 && a1[1..] == a2;
    assert SYS_PREFIX == "/sys/" + ("%s" + ("/" + ("%s" + "/")));
    ExpandText("/sys/", "%s" + ("/" + ("%s" + "/")), a0);
    ExpandArgument("/" + ("%s" + "/"), a0);
    ExpandText("/", "%s" + "/", a1);
    ExpandArgument("/", a1);
    ExpandText("/", "", a2);
    ExpandNothing(a2);
    SysJoin(productKey, deviceName);
    assert "/" + "" == "/";
  }

  lemma {:induction false} SysJoin(productKey: string, deviceName: string)
    ensures Join(["sys", productKey, deviceName]) == "/sys/" + productKey + "/" + deviceName
    ensures Join(["sys", productKey]) == "/sys/" + productKey && Join(["sys"]) == "/sys"
  {
    hide Join;
    ExpandNothing([]);
    JoinMore(["sys", productKey], deviceName);
    JoinMore(["sys"], productKey);
    JoinMore([], "sys");
    assert ["sys", productKey] + [deviceName] == ["sys", productKey, deviceName] && ["sys"] + [productKey] == ["sys", productKey];
    assert [] + ["sys"] == ["sys"];
  }

  lemma {:induction false} ExpandNothing(args: seq<string>)
    ensures Expand("", args) == "" && Join([]) == ""
  {
  }

  lemma {:induction false} PrefixTakesTwo()
    ensures Takes(SYS_PREFIX, 2)
  {
    TakesText("/sys/", "%s/%s/", 2);
    TakesText("/", "%s/", 1);
    TakesText("/", "", 0);
    assert "/sys/" + "%s/%s/" == SYS_PREFIX && "%s/%s/"[2..] == "/" + "%s/" && "%s/"[2..] == "/" + "";
  }

  lemma {:induction false} TakesText(text: string, rest: string, args: nat)
    requires '%' !in text
    ensures Takes(text + rest, args) == Takes(rest, args)
  {
    if text == "" {
      assert text + rest == rest;
    } else {
      assert (text + rest)[1..] == text[1..] + rest && (text + rest)[0] != '%';
      TakesText(text[1..], rest, args);
    }
  }

  /** A topic below the system prefix, as iotx_dm_subscribe_user_topic and every request compose it: it is always made, and
      it is the four parts in order. */
  method SysTopic(name: string, productKey: string, deviceName: string) returns (topic: string)
    ensures topic == Topic(productKey, deviceName, name)
    ensures topic == "/sys/" + productKey + "/" + deviceName + "/" + name
  {
    hide Expand, Takes;
    PrefixTakesTwo();
    TopicIs(productKey, deviceName, name);
    SysJoin(productKey, deviceName);
    var composed := ServiceName(Some(SYS_PREFIX), Some(name), productKey, deviceName);
    topic := composed.value;
  }

  /** A composed topic gives its identity back exactly when its name is not empty. */
  lemma {:induction false} TopicIdentity(productKey: string, deviceName: string, name: string)
    requires '/' !in productKey && '/' !in deviceName
    ensures IdentityOf(Topic(productKey, deviceName, name), 2)
         == if name != "" then Some(Identity(productKey, deviceName)) else None
  {
    hide Join, Between, Topic;
    var uri := Topic(productKey, deviceName, name);
    TopicIs(productKey, deviceName, name);
    SysJoin(productKey, deviceName);
    BetweenAfter(["sys", productKey], deviceName, name, uri);
    BetweenAfter(["sys"], productKey, deviceName + "/" + name, uri);
  }

  /** The topic of a reply to an event post gives the event id back. */
  lemma {:induction false} TopicEventId(productKey: string, deviceName: string, eventId: string)
    requires '/' !in productKey && '/' !in deviceName && '/' !in eventId
    ensures Between(Topic(productKey, deviceName, "thing/event/" + eventId + "/post_reply"), 6) == Some(eventId)
  {
    hide Join, Between;
    var name := "thing/event/" + eventId + "/post_reply";
    TopicIs(productKey, deviceName, name);
    var head := ["sys", productKey, deviceName];
    JoinMore(head, "thing");
    JoinMore(head + ["thing"], "event");
    var parts := head + ["thing"] + ["event"];
    assert Topic(productKey, deviceName, name) == Join(parts) + "/" + eventId + "/" + "post_reply" by {
      assert name == "thing" + "/" + "event" + "/" + eventId + "/" + "post_reply";
      assert Join(head) + "/" + name == Join(head) + "/" + "thing" + "/" + "event" + "/" + eventId + "/" + "post_reply";
    }
    BetweenAfter(parts, eventId, "post_reply", Topic(productKey, deviceName, name));
    hide Topic;
  }
}
