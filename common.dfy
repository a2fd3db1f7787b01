/** The optional value of JavaScript's `null` / `undefined`. */
module Options {
  datatype Option<T> = None | Some(value: T)
}

/** What a screen shows through React Native's `Alert.alert(title, message)`. */
module Ui {
  datatype Alert = Alert(title: string, message: string)
}
