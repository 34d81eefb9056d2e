/** The day's menu and the staff's partial update of it. */
module MenuBoard {
  import opened Text

  datatype Menu = Menu(breakfast: string, lunch: string, dinner: string)

  /** The menu the application starts with. */
  const DefaultMenu: Menu := Menu("Idli, Sambar", "Rice, Dal, Curry", "Chapathi, Paneer")

  /** One field of `update_menu`: the stripped submission if non-blank, else the current text. */
  function Overwrite(current: string, submitted: string): string {
    var s := Strip(submitted);
    if s != "" then s else current
  }

  /** The menu after `update_menu` with the three submitted form values ("" when a field is absent). */
  function Updated(m: Menu, breakfast: string, lunch: string, dinner: string): Menu {
    Menu(Overwrite(m.breakfast, breakfast), Overwrite(m.lunch, lunch), Overwrite(m.dinner, dinner))
  }

  /**
   * Each meal is replaced by its stripped submission exactly when that submission is not blank;
   * a blank one leaves the meal as it was.
   */
  lemma UpdatedFieldwise(m: Menu, breakfast: string, lunch: string, dinner: string)
    ensures var u := Updated(m, breakfast, lunch, dinner);
            && (Strip(breakfast) == "" ==> u.breakfast == m.breakfast)
            && (Strip(breakfast) != "" ==> u.breakfast == Strip(breakfast))
            && (Strip(lunch) == "" ==> u.lunch == m.lunch)
            && (Strip(lunch) != "" ==> u.lunch == Strip(lunch))
            && (Strip(dinner) == "" ==> u.dinner == m.dinner)
            && (Strip(dinner) != "" ==> u.dinner == Strip(dinner))
  {
  }

  /** Submitting only a lunch changes the lunch and nothing else. */
  lemma OnlyLunch(m: Menu, lunch: string)
    requires Strip(lunch) != ""
    ensures Updated(m, "", lunch, "") == m.(lunch := Strip(lunch))
  {
  }

  /** Submitting the same form twice is submitting it once. */
  lemma UpdatedIdempotent(m: Menu, breakfast: string, lunch: string, dinner: string)
    ensures var u := Updated(m, breakfast, lunch, dinner);
            Updated(u, breakfast, lunch, dinner) == u
  {
  }
}
