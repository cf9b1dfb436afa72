/**
 The fixed data the page starts from: the user directory, the current user,
 the initial feed and the initial state of every handler-owned value.
 */
module Seed {
  import opened Text
  import Seqs
  import opened Feed
  import opened FeedProperties
  import opened Search

  const DemoUsers: seq<User> := [
    User(1, "Алексей Громов", "alexgromov", "Дизайнер продуктов. Люблю минимализм и кофе.", 1240, 389),
    User(2, "Мария Сова", "mariasova", "Фотограф и путешественник.", 3421, 102),
    User(3, "Иван Петров", "ivanpetrov", "Разработчик, любитель Open Source.", 876, 450)
  ]

  const CurrentUser: User := User(0, "Вы", "me", "Расскажите о себе...", 0, 0)

  const InitialPosts: seq<Post> := [
    Post(1, 2, "Мария Сова", "mariasova",
      "Снял сегодня закат в Питере — небо было просто нереальным. Иногда важно остановиться и посмотреть вокруг.",
      "2 мин назад", 48, false,
      [ Comment(1, 3, "Иван Петров", "Потрясающе! Где именно снял?", 5, false),
        Comment(2, 1, "Алексей Громов", "Питер всегда красив в золотой час.", 3, false) ],
      false),
    Post(2, 1, "Алексей Громов", "alexgromov",
      "Работаю над новой дизайн-системой. Минимализм — это не отсутствие элементов, это присутствие только нужных.",
      "1 ч назад", 134, false,
      [ Comment(3, 2, "Мария Сова", "Согласна на 100%. Меньше — это больше.", 12, false) ],
      false),
    Post(3, 3, "Иван Петров", "ivanpetrov",
      "Запустил open source проект — инструмент для анализа зависимостей в монорепозиториях. Буду рад звёздочкам и фидбэку!",
      "3 ч назад", 89, false, [], false)
  ]

  const InitialState: State :=
    State(false, CurrentUser, InitialPosts, "", map[], "", AuthForm("", "", ""))

  /** The seed feed has consistent like counters, unique post ids, unique
      comment ids within each post, and no post of the current user. */
  lemma InitialFeedOk()
    ensures FeedOk(InitialState.posts)
    ensures UniquePostIds(InitialState.posts)
    ensures forall i :: 0 <= i < |InitialState.posts| ==> UniqueCommentIds(InitialState.posts[i])
    ensures OwnPostCount(InitialState.posts) == 0
    ensures !InitialState.isAuthed
  {
    assert forall p :: p in InitialPosts ==> p.userId != 0;
  }

  /** The empty query, the page's initial one, lists all three users in order. */
  lemma SearchEmptyListsAll()
    ensures FilteredUsers(DemoUsers, InitialState.searchQuery) == DemoUsers
  {
    EmptyQueryListsEveryone(DemoUsers);
  }

  /** Searching "maria" finds exactly Мария Сова, and so does "MARIA". */
  lemma SearchMaria()
    ensures FilteredUsers(DemoUsers, "maria") == [DemoUsers[1]]
    ensures FilteredUsers(DemoUsers, "MARIA") == [DemoUsers[1]]
  {
    MariaMatchesSova();
    MariaMissesGromov();
    MariaMissesPetrov();
    OnlyMiddleMatches(DemoUsers[0], DemoUsers[1], DemoUsers[2], "maria");
    assert DemoUsers == [DemoUsers[0], DemoUsers[1], DemoUsers[2]];
    MariaLowered();
    SearchIgnoresQueryCase(DemoUsers, "MARIA", "maria");
  }

  lemma OnlyMiddleMatches(a: User, b: User, c: User, q: string)
    requires !Matches(q, a) && Matches(q, b) && !Matches(q, c)
    ensures FilteredUsers([a, b, c], q) == [b]
  {
    var f := u => Matches(q, u);
    Seqs.FilterCons(f, a, [b, c]);
    Seqs.FilterCons(f, b, [c]);
    Seqs.FilterCons(f, c, []);
    assert [a, b, c] == [a] + [b, c] && [b, c] == [b] + [c] && [c] == [c] + [];
  }

  /** Of the three users only Мария Сова matches "maria". */
  lemma MariaMatchesSova()
    ensures Matches("maria", DemoUsers[1])
  {
    MariaLowered();
    assert Lower(DemoUsers[1].username) == "mariasova";
    assert "mariasova"[..5] == "maria";
  }

  lemma MariaMissesGromov()
    ensures !Matches("maria", DemoUsers[0])
  {
    MariaLowered();
    NoLatinM(DemoUsers[0].name);
    assert Lower(DemoUsers[0].username) == "alexgromov";
    NoEarlyStart("alexgromov", "maria");
  }

  lemma MariaMissesPetrov()
    ensures !Matches("maria", DemoUsers[2])
  {
    MariaLowered();
    NoLatinM(DemoUsers[2].name);
    assert Lower(DemoUsers[2].username) == "ivanpetrov";
    NoEarlyStart("ivanpetrov", "maria");
  }

  lemma MariaLowered()
    ensures Lower("maria") == "maria" && Lower("MARIA") == "maria"
  {
  }

  /** `n` does not occur in `h` when no position early enough to hold it
      carries its first character. */
  lemma NoEarlyStart(h: string, n: string)
    requires 0 < |n| <= |h| && n[0] !in h[..|h| - |n| + 1]
    ensures !Includes(h, n)
  {
  }

  /** A string of Cyrillic letters and spaces lowers to one without a Latin 'm',
      so it includes nothing starting with 'm'. */
  lemma NoLatinM(s: string)
    requires forall i :: 0 <= i < |s| ==> s[i] == ' ' || '\U{0400}' <= s[i] <= '\U{04FF}'
    ensures !Includes(Lower(s), "maria")
  {
    if Includes(Lower(s), "maria") {
      IncludesFirstChar(Lower(s), "maria");
    }
  }
}
