/** The Discord notifications (data/Webhook.kt): the embed posted when a module gets its first
    release, the one posted for every release and the one for a deleted module, with long
    texts cut to 600 characters. URL decoding is the JDK's and is a parameter (None where it
    throws); delivery is left to the Discord client, so a posted message is one appended to
    the client's outbox. */
module Webhook {
  import opened Wrappers
  import opened Text
  import opened Users
  import opened Entities
  import opened ModuleViews
  import opened Tracking

  /** The longest description or changelog posted as is. */
  const MAX_TEXT: nat := 600
  /** How much of a longer text is kept before the ellipsis. */
  const KEPT_TEXT: nat := 597
  const ELLIPSIS: string := "..."

  const EMBED_COLOR: int := 0x7b2fb5
  const BOT_NAME: string := "ctbot"
  const AVATAR_URL: string := "https://www.chattriggers.com/assets/images/logo-icon.png"
  const MODULE_PAGE: string := "https://www.chattriggers.com/modules/v/"

  /** A text over 600 characters becomes its first 597 plus "...". */
  function Truncate(s: string): string {
    if |s| > MAX_TEXT then s[..KEPT_TEXT] + ELLIPSIS else s
  }

  /** Truncation keeps texts of at most 600 characters, cuts longer ones to exactly 600 that
      start like the original and end in "...", and is idempotent. */
  lemma TruncateSpec(s: string)
    ensures |Truncate(s)| <= MAX_TEXT
    ensures |s| <= MAX_TEXT ==> Truncate(s) == s
    ensures |s| > MAX_TEXT ==>
      && |Truncate(s)| == MAX_TEXT
      && Truncate(s)[..KEPT_TEXT] == s[..KEPT_TEXT]
      && Truncate(s)[KEPT_TEXT..] == ELLIPSIS
    ensures Truncate(Truncate(s)) == Truncate(s)
  {
    if |s| > MAX_TEXT {
      var r := Truncate(s);
      assert r[..KEPT_TEXT] == s[..KEPT_TEXT];
      assert r[KEPT_TEXT..] == ELLIPSIS;
    }
  }

  /** Every character lies in the Basic Multilingual Plane, so the JVM stores it as one
      UTF-16 code unit. */
  predicate InBmp(s: string) {
    forall i :: 0 <= i < |s| ==> (s[i] as int) < 0x1_0000
  }

  /** Inside the BMP the code units are the characters themselves. */
  lemma {:induction false} Utf16InBmp(s: string)
    requires InBmp(s)
    ensures |Utf16(s)| == |s| && forall i :: 0 <= i < |s| ==> Utf16(s)[i] == s[i] as int
  {
    if s != [] {
      assert InBmp(s[1..]) by {
        forall i | 0 <= i < |s| - 1 ensures (s[1..][i] as int) < 0x1_0000 {
          assert s[1..][i] == s[i + 1];
        }
      }
      Utf16InBmp(s[1..]);
      assert Utf16(s) == [s[0] as int] + Utf16(s[1..]);
    }
  }

  /** On a text inside the BMP the model counts as Kotlin's `length` does: the text is cut
      exactly when it has more than 600 UTF-16 code units, the result has at most 600 of
      them, and a cut text keeps the first 597 code units of the original. */
  lemma TruncateCountsCodeUnitsInBmp(s: string)
    requires InBmp(s)
    ensures Truncate(s) != s <==> |Utf16(s)| > MAX_TEXT
    ensures |Utf16(Truncate(s))| <= MAX_TEXT
    ensures |Utf16(s)| > MAX_TEXT ==> |Utf16(Truncate(s))| == MAX_TEXT && Utf16(Truncate(s))[..KEPT_TEXT] == Utf16(s)[..KEPT_TEXT]
  {
    Utf16InBmp(s);
    var t := Truncate(s);
    assert InBmp(t) by {
      if |s| > MAX_TEXT {
        forall i | 0 <= i < |t| ensures (t[i] as int) < 0x1_0000 {
          if i < KEPT_TEXT { assert t[i] == s[i]; } else { assert t[i] == '.'; }
        }
      }
    }
    Utf16InBmp(t);
    if |s| > MAX_TEXT {
      assert |t| == MAX_TEXT;
      forall i | 0 <= i < KEPT_TEXT ensures Utf16(t)[i] == Utf16(s)[i] {
        assert t[i] == s[i];
      }
    }
  }

  /** `decode()`: each literal backslash-n becomes a newline, then the JDK URL-decodes the text
      (`urlDecode`, None where it throws on a malformed escape). */
  function Decode(s: string, urlDecode: string -> Option<string>): Option<string> {
    urlDecode(ReplaceAll(s, "\\n", "\n"))
  }

  /** A text without a literal backslash-n reaches the URL decoder unchanged. */
  lemma DecodeWithoutEscapes(s: string, urlDecode: string -> Option<string>)
    requires !Contains(s, "\\n")
    ensures Decode(s, urlDecode) == urlDecode(s)
  {
    ReplaceAllAbsent(s, "\\n", "\n");
  }

  // ---------------------------------------------------------------- embeds

  datatype Field = Field(inline: bool, name: string, value: string)

  datatype Embed = Embed(color: Option<int>, timestamp: Option<int>, title: string, titleUrl: Option<string>,
                         fields: seq<Field>, image: Option<string>)

  /** What the webhook posts: the bot's name and avatar around one embed. */
  datatype Message = Message(username: string, avatarUrl: string, embed: Embed)

  /** `WebhookEmbedBuilder`: the embed under construction. */
  class EmbedBuilder {
    var color: Option<int>
    var timestamp: Option<int>
    var title: string
    var titleUrl: Option<string>
    var fields: seq<Field>
    var image: Option<string>

    constructor()
      ensures color.None? && timestamp.None? && title == "" && titleUrl.None? && fields == [] && image.None?
    {
      color, timestamp, title, titleUrl, fields, image := None, None, "", None, [], None;
    }

    function Build(): (e: Embed)
      reads this
      ensures e.fields == fields && e.image == image && e.title == title
    {
      Embed(color, timestamp, title, titleUrl, fields, image)
    }

    method SetColor(c: int)
      modifies this
      ensures color == Some(c)
      ensures timestamp == old(timestamp) && title == old(title) && titleUrl == old(titleUrl) && fields == old(fields) && image == old(image)
    {
      color := Some(c);
    }

    method SetTimestamp(t: int)
      modifies this
      ensures timestamp == Some(t)
      ensures color == old(color) && title == old(title) && titleUrl == old(titleUrl) && fields == old(fields) && image == old(image)
    {
      timestamp := Some(t);
    }

    method SetTitle(t: string, url: Option<string>)
      modifies this
      ensures title == t && titleUrl == url
      ensures color == old(color) && timestamp == old(timestamp) && fields == old(fields) && image == old(image)
    {
      title, titleUrl := t, url;
    }

    method AddField(f: Field)
      modifies this
      ensures fields == old(fields) + [f]
      ensures color == old(color) && timestamp == old(timestamp) && title == old(title) && titleUrl == old(titleUrl) && image == old(image)
    {
      fields := fields + [f];
    }

    method SetImageUrl(url: string)
      modifies this
      ensures image == Some(url)
      ensures color == old(color) && timestamp == old(timestamp) && title == old(title) && titleUrl == old(titleUrl) && fields == old(fields)
    {
      image := Some(url);
    }
  }

  /** The fields of the module-created embed: the author, the tags when there are any, and the
      decoded description when it is not blank. */
  function ModuleCreatedFields(m: ModuleView, description: string): seq<Field> {
    [Field(true, "Author", m.owner.name)]
    + (if |m.tags| > 0 then [Field(true, "Tags", Join(m.tags, ", "))] else [])
    + (if IsBlank(description) then [] else [Field(false, "Description", description)])
  }

  /** `module.image?.trim() ?: ""`, set only when not blank. */
  function ImageOf(m: ModuleView): Option<string> {
    var image := if m.image.Some? then Trim(m.image.value) else "";
    if IsBlank(image) then None else Some(image)
  }

  /** The embed `onModuleCreated` posts, or None when decoding the description throws. */
  function ModuleCreatedEmbed(m: ModuleView, urlDecode: string -> Option<string>, now: int): Option<Embed> {
    match Decode(Truncate(m.description), urlDecode)
    case None => None
    case Some(description) =>
      Some(Embed(Some(EMBED_COLOR), Some(now), "Module created: " + m.name, Some(MODULE_PAGE + m.name),
                 ModuleCreatedFields(m, description), ImageOf(m)))
  }

  predicate HasField(fields: seq<Field>, name: string) {
    exists i :: 0 <= i < |fields| && fields[i].name == name
  }

  /** The module-created embed always names the author first; it has a Tags field exactly when
      the module has tags, a Description field exactly when the truncated, decoded description
      is not blank, and an image exactly when the module's image is present and not blank,
      trimmed. */
  lemma ModuleCreatedEmbedSpec(m: ModuleView, urlDecode: string -> Option<string>, now: int)
    requires ModuleCreatedEmbed(m, urlDecode, now).Some?
    ensures var e := ModuleCreatedEmbed(m, urlDecode, now).value;
      var description := Decode(Truncate(m.description), urlDecode).value;
      && e.title == "Module created: " + m.name
      && e.fields[0] == Field(true, "Author", m.owner.name)
      && (HasField(e.fields, "Tags") <==> |m.tags| > 0)
      && (HasField(e.fields, "Description") <==> !IsBlank(description))
      && (e.image.Some? <==> m.image.Some? && !IsBlank(m.image.value))
      && (e.image.Some? ==> e.image.value == Trim(m.image.value))
  {
    var e := ModuleCreatedEmbed(m, urlDecode, now).value;
    var description := Decode(Truncate(m.description), urlDecode).value;
    var tags: seq<Field> := if |m.tags| > 0 then [Field(true, "Tags", Join(m.tags, ", "))] else [];
    var desc: seq<Field> := if IsBlank(description) then [] else [Field(false, "Description", description)];
    assert e.fields == [Field(true, "Author", m.owner.name)] + tags + desc;
    if |m.tags| > 0 {
      assert e.fields[1].name == "Tags";
    }
    if !IsBlank(description) {
      assert e.fields[|e.fields| - 1].name == "Description";
    }
    if m.image.Some? {
      BlankIffTrimEmpty(m.image.value);
      BlankIffTrimEmpty(Trim(m.image.value));
    }
  }

  /** The embed `onModuleDeleted` posts: the title alone, without a link to the module's page,
      which no longer exists. */
  function ModuleDeletedEmbed(m: ModuleView, now: int): Embed {
    Embed(Some(EMBED_COLOR), Some(now), "Module deleted: " + m.name, None, [], None)
  }

  /** Unlike the module-created embed, the deleted one links nowhere and has no fields or
      image; both name the module in the title. */
  lemma ModuleDeletedEmbedSpec(m: ModuleView, urlDecode: string -> Option<string>, now: int)
    requires ModuleCreatedEmbed(m, urlDecode, now).Some?
    ensures var d := ModuleDeletedEmbed(m, now);
      var c := ModuleCreatedEmbed(m, urlDecode, now).value;
      && d.titleUrl.None? && c.titleUrl == Some(MODULE_PAGE + m.name)
      && d.fields == [] && |c.fields| >= 1 && d.image.None?
      && d.color == c.color && d.timestamp == c.timestamp
  {
  }

  /** The fields of the release-created embed: author, release version and mod version, then the
      decoded changelog when it is not blank. */
  function ReleaseCreatedFields(m: ModuleView, release: Release, changelog: string): seq<Field> {
    [Field(true, "Author", m.owner.name), Field(true, "Release Version", release.releaseVersion),
     Field(true, "Mod Version", release.modVersion)]
    + (if IsBlank(changelog) then [] else [Field(false, "Changelog", changelog)])
  }

  /** The release embed `onReleaseCreated` posts, or None when decoding the changelog throws. */
  function ReleaseCreatedEmbed(m: ModuleView, release: Release, urlDecode: string -> Option<string>, now: int): Option<Embed> {
    match Decode(Truncate(release.changelog), urlDecode)
    case None => None
    case Some(changelog) =>
      Some(Embed(Some(EMBED_COLOR), Some(now), "Release created for module: " + m.name, Some(MODULE_PAGE + m.name),
                 ReleaseCreatedFields(m, release, changelog), None))
  }

  /** Every release embed starts with the Author, Release Version and Mod Version fields and has
      a Changelog field exactly when the truncated, decoded changelog is not blank. */
  lemma ReleaseCreatedEmbedSpec(m: ModuleView, release: Release, urlDecode: string -> Option<string>, now: int)
    requires ReleaseCreatedEmbed(m, release, urlDecode, now).Some?
    ensures var e := ReleaseCreatedEmbed(m, release, urlDecode, now).value;
      var changelog := Decode(Truncate(release.changelog), urlDecode).value;
      && |e.fields| >= 3
      && e.fields[..3] == [Field(true, "Author", m.owner.name), Field(true, "Release Version", release.releaseVersion),
                           Field(true, "Mod Version", release.modVersion)]
      && (HasField(e.fields, "Changelog") <==> !IsBlank(changelog))
      && e.image.None?
  {
    var e := ReleaseCreatedEmbed(m, release, urlDecode, now).value;
    var changelog := Decode(Truncate(release.changelog), urlDecode).value;
    if !IsBlank(changelog) {
      assert e.fields[3].name == "Changelog";
    }
  }

  /** `sendMessage`'s message around an embed. */
  function Post(e: Embed): Message {
    Message(BOT_NAME, AVATAR_URL, e)
  }

  /** The messages `onReleaseCreated` posts, in order, up to the first exception: the
      module-created message first when this is the module's only release (stamped `t1`), then
      the release message (stamped `t2`). */
  function ReleaseCreatedPosts(m: ModuleView, release: Release, urlDecode: string -> Option<string>,
                               t1: int, t2: int): seq<Message>
  {
    if |m.releases| == 1 then
      match ModuleCreatedEmbed(m, urlDecode, t1)
      case None => []
      case Some(e) =>
        [Post(e)] + (match ReleaseCreatedEmbed(m, release, urlDecode, t2)
                     case None => []
                     case Some(r) => [Post(r)])
    else
      match ReleaseCreatedEmbed(m, release, urlDecode, t2)
      case None => []
      case Some(r) => [Post(r)]
  }

  /** When every text decodes, a release is announced by one message, preceded by the
      module-created message exactly when the module has one release. */
  lemma ReleaseCreatedOrder(m: ModuleView, release: Release, urlDecode: string -> Option<string>, t1: int, t2: int)
    requires ModuleCreatedEmbed(m, urlDecode, t1).Some? && ReleaseCreatedEmbed(m, release, urlDecode, t2).Some?
    ensures var posts := ReleaseCreatedPosts(m, release, urlDecode, t1, t2);
      && |posts| == (if |m.releases| == 1 then 2 else 1)
      && posts[|posts| - 1] == Post(ReleaseCreatedEmbed(m, release, urlDecode, t2).value)
      && (|m.releases| == 1 ==> posts[0] == Post(ModuleCreatedEmbed(m, urlDecode, t1).value))
      && forall i :: 0 <= i < |posts| ==> posts[i].username == BOT_NAME && posts[i].embed.color == Some(EMBED_COLOR)
  {
  }

  /** The module-created embed as `onModuleCreated` builds it, step by step. */
  method BuildModuleCreated(m: ModuleView, urlDecode: string -> Option<string>, now: int) returns (e: Option<Embed>)
    ensures e == ModuleCreatedEmbed(m, urlDecode, now)
  {
    var b := new EmbedBuilder();
    b.SetColor(EMBED_COLOR);
    b.SetTimestamp(now);
    b.SetTitle("Module created: " + m.name, Some(MODULE_PAGE + m.name));
    b.AddField(Field(true, "Author", m.owner.name));
    if |m.tags| > 0 {
      b.AddField(Field(true, "Tags", Join(m.tags, ", ")));
    }
    ghost var head := b.fields;
    assert head == [Field(true, "Author", m.owner.name)]
      + (if |m.tags| > 0 then [Field(true, "Tags", Join(m.tags, ", "))] else []);
    var description := Decode(Truncate(m.description), urlDecode);
    if description.None? {
      return None;
    }
    if !IsBlank(description.value) {
      b.AddField(Field(false, "Description", description.value));
    }
    var image := if m.image.Some? then Trim(m.image.value) else "";
    if !IsBlank(image) {
      b.SetImageUrl(image);
    }
    assert b.fields == ModuleCreatedFields(m, description.value);
    assert b.image == ImageOf(m);
    return Some(b.Build());
  }

  /** The module-deleted embed as `onModuleDeleted` builds it. */
  method BuildModuleDeleted(m: ModuleView, now: int) returns (e: Embed)
    ensures e == ModuleDeletedEmbed(m, now)
  {
    var b := new EmbedBuilder();
    b.SetColor(EMBED_COLOR);
    b.SetTimestamp(now);
    b.SetTitle("Module deleted: " + m.name, None);
    return b.Build();
  }

  /** The release embed as `onReleaseCreated` builds it, step by step. */
  method BuildReleaseCreated(m: ModuleView, release: Release, urlDecode: string -> Option<string>, now: int)
    returns (e: Option<Embed>)
    ensures e == ReleaseCreatedEmbed(m, release, urlDecode, now)
  {
    var b := new EmbedBuilder();
    b.SetColor(EMBED_COLOR);
    b.SetTimestamp(now);
    b.SetTitle("Release created for module: " + m.name, Some(MODULE_PAGE + m.name));
    b.AddField(Field(true, "Author", m.owner.name));
    b.AddField(Field(true, "Release Version", release.releaseVersion));
    b.AddField(Field(true, "Mod Version", release.modVersion));
    var changelog := Decode(Truncate(release.changelog), urlDecode);
    if changelog.None? {
      return None;
    }
    if !IsBlank(changelog.value) {
      b.AddField(Field(false, "Changelog", changelog.value));
    }
    assert b.fields == ReleaseCreatedFields(m, release, changelog.value);
    return Some(b.Build());
  }

  /** The `Webhook` object: its client, set up once from the configured URL, and the messages
      handed to it. Posting before `setupWebhook` throws, as reading an unset `lateinit` does. */
  class Notifier {
    var client: Option<string>
    var outbox: seq<Message>

    constructor()
      ensures client.None? && outbox == []
    {
      client, outbox := None, [];
    }

    /** `setupWebhook`: the client for the configured webhook URL. */
    method SetupWebhook(webhookUrl: string)
      modifies this
      ensures client == Some(webhookUrl) && outbox == old(outbox)
    {
      client := Some(webhookUrl);
    }

    /** `sendMessage` after its embed is built: nothing is posted without a client. */
    method Send(e: Embed)
      modifies this
      ensures client == old(client)
      ensures outbox == old(outbox) + (if client.Some? then [Post(e)] else [])
    {
      if client.Some? {
        outbox := outbox + [Post(e)];
      }
    }

    /** `onModuleCreated`. */
    method OnModuleCreated(m: ModuleView, urlDecode: string -> Option<string>, now: int)
      modifies this
      ensures client == old(client)
      ensures outbox == old(outbox) +
        (if client.Some? && ModuleCreatedEmbed(m, urlDecode, now).Some?
         then [Post(ModuleCreatedEmbed(m, urlDecode, now).value)] else [])
    {
      var e := BuildModuleCreated(m, urlDecode, now);
      if e.Some? {
        Send(e.value);
      }
    }

    /** `onModuleDeleted`. */
    method OnModuleDeleted(m: ModuleView, now: int)
      modifies this
      ensures client == old(client)
      ensures outbox == old(outbox) + (if client.Some? then [Post(ModuleDeletedEmbed(m, now))] else [])
    {
      var e := BuildModuleDeleted(m, now);
      Send(e);
    }

    /** `onReleaseCreated`: the module-created message for a module's only release, then the
      release message; an exception stops the rest. */
    method OnReleaseCreated(m: ModuleView, release: Release, urlDecode: string -> Option<string>, t1: int, t2: int)
      modifies this
      ensures client == old(client)
      ensures outbox == old(outbox) + (if client.Some? then ReleaseCreatedPosts(m, release, urlDecode, t1, t2) else [])
    {
      if |m.releases| == 1 {
        var created := BuildModuleCreated(m, urlDecode, t1);
        if created.None? {
          return;
        }
        Send(created.value);
      }
      var e := BuildReleaseCreated(m, release, urlDecode, t2);
      if e.Some? {
        Send(e.value);
      }
    }
  }
}
